/** A remove() never waits for more than steps of the receive thread. */
module RegistryProgress {
  import opened Bytes
  import opened Registry
  import opened RegistryProtocol
  import opened RegistrySafety
  import opened Wrappers

  /** The receive thread exits only when the Context is stopped. */
  lemma {:induction false} ExitedIsStopped(steps: seq<Step>)
    ensures After(INITIAL, steps).phase.Exited? ==> After(INITIAL, steps).stop
  {
    if steps != [] {
      var n := |steps| - 1;
      ExitedIsStopped(steps[..n]);
      StaysStopped(After(INITIAL, steps[..n]), steps[n]);
    }
  }

  lemma StaysStopped(s: State, step: Step)
    requires s.phase.Exited? ==> s.stop
    ensures Stepped(s, step).phase.Exited? ==> Stepped(s, step).stop
  {
    hide AfterErase, AfterRekey, AfterAdd, AfterBind, Keys, Moves, AddOutcome, ReceiverOf;
  }

  /** How far the receive thread is from copying the entries. */
  function Stage(p: Phase): (n: nat) {
    match p
    case Lock(_) => 0
    case Check(_) => 1
    case Top => 2
    case Polling => 3
    case _ => 4
  }

  function TowardsCopy(p: Phase): (r: RxOp) {
    match p
    case Lock(_) => CopyEntries
    case Check(_) => CheckGeneration
    case Top => Loop
    case Polling => Poll
    case Ticking(_) => NextTimer
    case InTick(_, _) => TimerDone
    case Dispatching(_) => NextDatagram
    case _ => DatagramDone
  }

  /** The entries as they are now have not been copied yet. */
  predicate Behind(s: State) {
    s.change.None? && !s.stop && !s.phase.Exited? && s.seen == s.observed < s.generation
  }

  lemma OneStepOn(s: State)
    requires Behind(s)
    ensures var t := Stepped(s, Rx(TowardsCopy(s.phase)));
            && t.waiters == s.waiters && t.change.None? && t.generation == s.generation
            && (t.observed == s.generation
                || (Behind(t) && (Stage(t.phase) < Stage(s.phase)
                                  || (Stage(t.phase) == Stage(s.phase) == 4 && Nearer(s.phase, t.phase)))))
  {
    hide ReceiverOf;
  }

  /** The receive thread alone gets to see the newest generation. */
  lemma {:induction false} CopyComes(s: State) returns (steps: seq<Step>)
    requires Behind(s)
    ensures forall k :: 0 <= k < |steps| ==> steps[k].Rx?
    ensures var t := After(s, steps);
            t.waiters == s.waiters && t.change.None? && t.observed == t.generation == s.generation
    decreases Stage(s.phase), s.phase.Ticking? || s.phase.InTick?, Left(s.phase),
              s.phase.Ticking? || s.phase.Dispatching?
  {
    hide Stepped, After;
    var step := Rx(TowardsCopy(s.phase));
    var t := Stepped(s, step);
    OneStepOn(s);
    var rest: seq<Step> := [];
    if t.observed != s.generation { rest := CopyComes(t); } else { NoSteps(t); }
    AfterFirst(s, step, rest);
    steps := [step] + rest;
  }

  lemma NoSteps(s: State)
    ensures After(s, []) == s
  {
  }

  lemma TargetsAreReached(s: State, k: nat)
    requires Invariant(s) && k < |s.waiters|
    ensures s.seen == s.observed <= s.generation && s.waiters[k].target <= s.generation
  {
  }

  /**
    From every reachable state in which no user thread holds the mutex, steps of the receive thread alone
    let any remove() that waits return.
  */
  lemma RemoveCanReturn(run: seq<Step>, k: nat) returns (steps: seq<Step>)
    requires After(INITIAL, run).change.None? && k < |After(INITIAL, run).waiters|
    ensures forall i :: 0 <= i < |steps| ==> steps[i].Rx?
    ensures After(After(INITIAL, run), steps).waiters == After(INITIAL, run).waiters
    ensures UserEnabled(After(After(INITIAL, run), steps), Return(k))
  {
    hide After, Invariant;
    InitiallyKept();
    RunKeeps(INITIAL, run);
    ExitedIsStopped(run);
    var s := After(INITIAL, run);
    TargetsAreReached(s, k);
    if s.stop || s.observed >= s.waiters[k].target {
      NoSteps(s);
      steps := [];
    } else {
      steps := CopyComes(s);
    }
  }

  // ---------------------------------------------------------------------------
  // Receiving and stopping
  // ---------------------------------------------------------------------------

  /** A received batch is dispatched as a whole, with the entries as they are then. */
  lemma ReceivedIsDispatched(s: State, batch: seq<U32>) returns (steps: seq<Step>)
    requires s.phase == Polling && s.change.None?
    ensures steps != [] && steps[0] == Rx(Receive(batch)) && forall k :: 0 <= k < |steps| ==> steps[k].Rx?
    ensures var t := After(s, steps);
            && t.phase == Dispatching(batch) && t.seen == t.generation == s.generation
            && t.datagrams == s.datagrams + |batch|
  {
    hide After;
    var r := Stepped(s, Rx(Receive(batch)));
    var c := Stepped(r, Rx(CheckGeneration));
    var rest: seq<Step> := [];
    NoSteps(c);
    if c.phase.Lock? {
      NoSteps(Stepped(c, Rx(CopyEntries)));
      AfterFirst(c, Rx(CopyEntries), []);
      rest := [Rx(CopyEntries)] + [];
    }
    AfterFirst(r, Rx(CheckGeneration), rest);
    AfterFirst(s, Rx(Receive(batch)), [Rx(CheckGeneration)] + rest);
    steps := [Rx(Receive(batch))] + ([Rx(CheckGeneration)] + rest);
  }

  /** How far the receive thread is from the top of its loop. */
  function Rank(p: Phase): (n: nat) {
    match p
    case Top => 0
    case Polling => 1
    case Check(_) => 4
    case Lock(_) => 3
    case _ => 2
  }

  lemma OneStepOut(s: State)
    requires s.stop && s.change.None? && !s.phase.Exited?
    ensures var t := Stepped(s, Rx(TowardsCopy(s.phase)));
            && t.stop && t.change.None?
            && (t.phase.Exited? || Rank(t.phase) < Rank(s.phase)
                || (Rank(t.phase) == Rank(s.phase) == 2 && Nearer(s.phase, t.phase)))
  {
    hide ReceiverOf;
  }

  /** Once the Context is stopped, the receive thread gets to its end by its own steps. */
  lemma {:induction false} ThreadCanExit(s: State) returns (steps: seq<Step>)
    requires s.stop && s.change.None?
    ensures forall k :: 0 <= k < |steps| ==> steps[k].Rx?
    ensures After(s, steps).phase.Exited?
    decreases !s.phase.Exited?, Rank(s.phase), s.phase.Ticking? || s.phase.InTick?, Left(s.phase),
              s.phase.Ticking? || s.phase.Dispatching?
  {
    hide Stepped, After;
    if s.phase.Exited? {
      NoSteps(s);
      steps := [];
    } else {
      var step := Rx(TowardsCopy(s.phase));
      OneStepOut(s);
      var rest := ThreadCanExit(Stepped(s, step));
      AfterFirst(s, step, rest);
      steps := [step] + rest;
    }
  }

  /** What the user threads' operations do to the registry while the mutex is free, and when others may see it. */
  lemma UserOperations(s: State, ip: U32, serial: string, receiver: nat, device: Option<nat>)
    requires s.change.None?
    ensures Stepped(s, User(Add(ip, serial, receiver))).entries == AfterAdd(s.entries, ip, serial, receiver)
    ensures Stepped(s, User(Rekey(receiver, ip))).entries == AfterRekey(s.entries, receiver, ip)
    ensures Stepped(s, User(Remove(receiver))).entries == AfterErase(s.entries, receiver)
    ensures Stepped(s, User(Bind(receiver, device))).entries == AfterBind(s.entries, receiver, device)
    ensures var t := Stepped(s, User(Remove(receiver)));
            var u := Stepped(t, User(Publish));
            && u.generation == s.generation + 1 && u.change.None? && u.entries == t.entries
            && u.waiters == s.waiters + [Waiter(receiver, u.generation)]
  {
    hide AfterBind, AfterErase;
  }
}
