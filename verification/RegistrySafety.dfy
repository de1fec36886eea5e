/** What the registry protocol guarantees over every interleaving, and where it does not. */
module RegistrySafety {
  import opened Bytes
  import opened Registry
  import opened RegistryProtocol
  import opened Seqs
  import opened Wrappers

  /** The registry, the snapshot and the counters are consistent. */
  ghost predicate Consistent(s: State) {
    && Unique(s.entries)
    && s.seen < |s.history| && Keys(s.snapshot) == s.history[s.seen]
    && (s.phase.Dispatching? || s.phase.InDatagram? ==> s.received <= s.seen)
    && s.datagrams == s.delivered + s.unknownSource + Outstanding(s.phase)
  }

  /**
    Every interleaving: source addresses and serials stay unique; the receive thread's snapshot is
    the registry as it was at one generation; every batch is dispatched from a generation no older
    than when it was received; and every datagram is handed over, counted as unknown or still to come.
  */
  lemma EveryInterleaving(steps: seq<Step>)
    ensures Consistent(After(INITIAL, steps))
  {
    hide After, Unique, Keys, Accounted, CallsFromSnapshot, Outstanding;
    InitiallyKept();
    RunKeeps(INITIAL, steps);
    var s := After(INITIAL, steps);
    assert Sound(s) && Dispatches(s);
  }

  // ---------------------------------------------------------------------------
  // Removed receivers
  // ---------------------------------------------------------------------------

  /** A callback on the receiver is in flight. */
  predicate InFlight(s: State, receiver: nat) {
    (s.phase.InTick? || s.phase.InDatagram?) && s.phase.receiver == receiver
  }

  /** Once the receive thread has seen the generation of a removal, it does not call the receiver. */
  lemma SeenIsQuiet(s: State, receiver: nat)
    requires Invariant(s) && receiver in s.gone && s.gone[receiver] <= s.observed
    ensures !WillCall(s, receiver)
  {
    hide WillCall, HasReceiver, Keys, Unique, Dispatches;
    assert Absent(s, receiver, s.gone[receiver]);
    KeysHold(s.snapshot, receiver);
  }

  /** A receiver that is gone and not about to be called stays so until it is added again. */
  lemma QuietStays(s: State, step: Step, receiver: nat)
    requires Invariant(s) && receiver in s.gone && !WillCall(s, receiver)
    ensures receiver in Stepped(s, step).gone ==> !WillCall(Stepped(s, step), receiver)
    ensures receiver in Stepped(s, step).gone || (step.User? && step.user.Add? && step.user.receiver == receiver)
  {
    match step {
      case User(u) =>
        if UserEnabled(s, u) { UserStepLeavesPhase(s, u); }
      case Rx(r) =>
        if RxEnabled(s, r) {
          assert Absent(s, receiver, s.gone[receiver]);
          RxStepIsQuiet(s, r, receiver);
        }
    }
  }

  lemma UserStepLeavesPhase(s: State, u: UserOp)
    requires UserEnabled(s, u)
    ensures UserStep(s, u).phase == s.phase && UserStep(s, u).snapshot == s.snapshot
    ensures forall r :: r in s.gone ==> r in UserStep(s, u).gone || (u.Add? && u.receiver == r)
  {
    hide AfterErase, AfterRekey, AfterAdd, AfterBind, Keys, Moves, AddOutcome;
  }

  lemma RxStepIsQuiet(s: State, r: RxOp, receiver: nat)
    requires Sound(s) && RxEnabled(s, r) && !WillCall(s, receiver)
    requires !HasReceiver(s.entries, receiver) && !Holds(s.history[s.generation], receiver)
    ensures RxStep(s, r).gone == s.gone && !WillCall(RxStep(s, r), receiver)
  {
    hide Unique, Keys, Holds;
    KeysHold(s.snapshot, receiver);
    if r.NextDatagram? && s.phase.batch != [] {
      assert ReceiverOf(s.snapshot, s.phase.batch[0]) != Some(receiver);
      assert !Addressed(s.snapshot, s.phase.batch[1..], receiver);
    }
  }

  /** No step adds the receiver. */
  predicate NeverAdded(steps: seq<Step>, receiver: nat) {
    forall k :: 0 <= k < |steps| ==>
                  !(steps[k].User? && steps[k].user.Add? && steps[k].user.receiver == receiver)
  }

  lemma {:induction false} NeverCalledAgain(s: State, steps: seq<Step>, receiver: nat)
    requires Invariant(s) && receiver in s.gone && !WillCall(s, receiver) && NeverAdded(steps, receiver)
    ensures receiver in After(s, steps).gone && !WillCall(After(s, steps), receiver)
  {
    hide Invariant, WillCall, Stepped;
    if steps != [] {
      var n := |steps| - 1;
      NeverCalledAgain(s, steps[..n], receiver);
      RunKeeps(s, steps[..n]);
      QuietStays(After(s, steps[..n]), steps[n], receiver);
    }
  }

  // ---------------------------------------------------------------------------
  // Stopping
  // ---------------------------------------------------------------------------

  /** A Context is stopped when no entry and no remove() is left, and not used afterwards. */
  predicate Allowed(s: State, step: Step) {
    match step
    case User(Stop) => s.entries == [] && s.waiters == [] && s.change.None?
    case User(Add(_, _, _)) => !s.stop
    case User(Rekey(_, _)) => !s.stop
    case User(Remove(_)) => !s.stop
    case _ => true
  }

  ghost predicate Disciplined(steps: seq<Step>) {
    forall k :: 0 <= k < |steps| ==> Allowed(After(INITIAL, steps[..k]), steps[k])
  }

  /** The receive thread has seen every removal that returned. */
  ghost predicate Released(s: State) {
    && (forall r :: r in s.returned ==> r in s.gone && s.gone[r] <= s.observed)
    && (s.stop ==> s.waiters == [] && s.change.None?)
  }

  lemma StepReleases(s: State, step: Step)
    requires Invariant(s) && Released(s) && Allowed(s, step)
    ensures Released(Stepped(s, step))
  {
    hide Dispatches, CallsFromSnapshot, UserStep, RxStep, Unique, Keys, HasReceiver, Holds;
    match step {
      case User(u) =>
        if UserEnabled(s, u) {
          match u {
            case Publish => PublishKeepsReturned(s); PublishIsUserStep(s);
            case _ => UserStepReleases(s, u);
          }
        }
      case Rx(r) =>
        if RxEnabled(s, r) { RxStepReleases(s, r); }
    }
  }

  lemma PublishIsUserStep(s: State)
    requires s.change.Some?
    ensures UserStep(s, Publish) == PublishStep(s)
  {
    hide PublishStep;
  }

  lemma UserStepReleases(s: State, u: UserOp)
    requires Released(s) && Allowed(s, User(u)) && UserEnabled(s, u) && !u.Publish?
    ensures Released(UserStep(s, u))
  {
    hide AfterErase, AfterRekey, AfterAdd, AfterBind, Moves, AddOutcome;
  }

  lemma RxStepReleases(s: State, r: RxOp)
    requires Released(s) && s.observed <= s.generation && RxEnabled(s, r)
    ensures Released(RxStep(s, r))
  {
    hide ReceiverOf;
  }

  lemma PublishKeepsReturned(s: State)
    requires Released(s) && s.change.Some? && s.returned <= s.gone.Keys
    ensures Released(PublishStep(s))
  {
    hide Keys;
  }

  lemma {:induction false} DisciplinedRunReleases(steps: seq<Step>)
    requires Disciplined(steps)
    ensures Invariant(After(INITIAL, steps)) && Released(After(INITIAL, steps))
  {
    hide Invariant, Released, Stepped, Allowed;
    InitiallyKept();
    if steps == [] {
      InitiallyReleased();
    } else {
      var n := |steps| - 1;
      DisciplinedPrefix(steps);
      DisciplinedRunReleases(steps[..n]);
      StepReleases(After(INITIAL, steps[..n]), steps[n]);
      StepKeeps(After(INITIAL, steps[..n]), steps[n]);
    }
  }

  lemma InitiallyReleased()
    ensures Released(INITIAL)
  {
  }

  lemma DisciplinedPrefix(steps: seq<Step>)
    requires steps != [] && Disciplined(steps)
    ensures Disciplined(steps[..|steps| - 1])
  {
    hide After, Allowed;
    var before := steps[..|steps| - 1];
    forall k | 0 <= k < |before| ensures Allowed(After(INITIAL, before[..k]), before[k]) {
      assert before[..k] == steps[..k];
    }
  }

  /**
    Every interleaving in which the Context is stopped only when no entry and no remove() is left:
    a receiver whose remove() returned, and that was not added again, is neither in a callback nor
    about to be called.
  */
  lemma RemovedIsNeverCalled(steps: seq<Step>, receiver: nat)
    requires Disciplined(steps) && receiver in After(INITIAL, steps).returned
    ensures !WillCall(After(INITIAL, steps), receiver) && !InFlight(After(INITIAL, steps), receiver)
  {
    hide After, Disciplined, Sound, Accounted, Dispatches, CallsFromSnapshot;
    DisciplinedRunReleases(steps);
    SeenIsQuiet(After(INITIAL, steps), receiver);
  }

  lemma AfterOneMore(s: State, steps: seq<Step>, step: Step)
    ensures After(s, steps + [step]) == Stepped(After(s, steps), step)
  {
    hide Stepped;
    Without(steps, step);
  }

  lemma {:induction false} AfterFirst(s: State, step: Step, rest: seq<Step>)
    ensures After(s, [step] + rest) == After(Stepped(s, step), rest)
  {
    hide Stepped;
    if rest == [] {
      assert [step] + rest == [step] && [step][..0] == [];
      assert After(s, [step]) == Stepped(After(s, []), step);
    } else {
      var n := |rest| - 1;
      AfterFirst(s, step, rest[..n]);
      assert ([step] + rest)[..n + 1] == [step] + rest[..n];
    }
  }

  // ---------------------------------------------------------------------------
  // Exactly when a remove() that returns is safe
  // ---------------------------------------------------------------------------

  /** The receive thread alone gets to every call it is about to make. */
  lemma {:induction false} CallComes(s: State, receiver: nat) returns (steps: seq<Step>)
    requires WillCall(s, receiver)
    ensures InFlight(After(s, steps), receiver)
    ensures forall k :: 0 <= k < |steps| ==> steps[k].Rx?
    decreases s.phase.Ticking? || s.phase.InTick?, Left(s.phase), s.phase.Ticking? || s.phase.Dispatching?
  {
    if InFlight(s, receiver) {
      steps := [];
    } else {
      var step := NextStep(s.phase);
      var s' := Stepped(s, Rx(step));
      StillComes(s, receiver);
      var rest := CallComes(s', receiver);
      AfterFirst(s, Rx(step), rest);
      steps := [Rx(step)] + rest;
    }
  }

  function Left(p: Phase): (n: nat) {
    match p
    case Ticking(timers) => |timers|
    case InTick(_, timers) => |timers| + 1
    case Dispatching(batch) => |batch|
    case InDatagram(_, batch) => |batch| + 1
    case _ => 0
  }

  function NextStep(p: Phase): (r: RxOp) {
    match p
    case Ticking(_) => NextTimer
    case InTick(_, _) => TimerDone
    case Dispatching(_) => NextDatagram
    case _ => DatagramDone
  }

  /** One step nearer to the call: less is left, or the next callback has begun. */
  predicate Nearer(p: Phase, q: Phase) {
    && (p.Ticking? || p.InTick?) == (q.Ticking? || q.InTick?)
    && (Left(q) < Left(p)
        || (Left(q) == Left(p) && (p.Ticking? || p.Dispatching?) && !(q.Ticking? || q.Dispatching?)))
  }

  lemma StillComes(s: State, receiver: nat)
    requires WillCall(s, receiver) && !InFlight(s, receiver)
    ensures var t := Stepped(s, Rx(NextStep(s.phase)));
            WillCall(t, receiver) && Nearer(s.phase, t.phase)
  {
    hide ReceiverOf;
    if s.phase.Ticking? {
      TimersShrink(s.phase.timers, receiver);
    } else if s.phase.Dispatching? {
      BatchShrinks(s.snapshot, s.phase.batch, receiver);
    }
  }

  lemma TimersShrink(timers: seq<Entry>, receiver: nat)
    requires HasReceiver(timers, receiver)
    ensures timers != [] && (timers[0].receiver == receiver || HasReceiver(timers[1..], receiver))
  {
    var k :| 0 <= k < |timers| && timers[k].receiver == receiver;
    if k > 0 { assert timers[1..][k - 1].receiver == receiver; }
  }

  lemma BatchShrinks(snapshot: seq<Entry>, batch: seq<U32>, receiver: nat)
    requires Addressed(snapshot, batch, receiver)
    ensures batch != []
    ensures ReceiverOf(snapshot, batch[0]) == Some(receiver) || Addressed(snapshot, batch[1..], receiver)
  {
    hide ReceiverOf;
    var k :| 0 <= k < |batch| && ReceiverOf(snapshot, batch[k]) == Some(receiver);
    if k > 0 { assert batch[1..][k - 1] == batch[k]; }
  }

  /** Some continuation that does not add the receiver again calls it. */
  ghost predicate CanStillBeCalled(s: State, receiver: nat) {
    exists steps :: NeverAdded(steps, receiver) && InFlight(After(s, steps), receiver)
  }

  /**
    Without any rule for stopping: when a remove() may return, its receiver can still be called
    exactly if the receive thread is in or before a call of it, and then only because of the stop.
  */
  lemma ReturnIsSafeExactly(steps: seq<Step>, k: nat)
    requires var s := After(INITIAL, steps);
             && UserEnabled(s, Return(k)) && s.waiters[k].receiver in s.gone
             && s.gone[s.waiters[k].receiver] <= s.waiters[k].target
    ensures var s := After(INITIAL, steps);
            var r := s.waiters[k].receiver;
            && (CanStillBeCalled(s, r) <==> WillCall(s, r))
            && (WillCall(s, r) ==> s.stop && s.observed < s.waiters[k].target)
  {
    hide After, WillCall, InFlight, Sound, Accounted, Dispatches, CallsFromSnapshot;
    InitiallyKept();
    RunKeeps(INITIAL, steps);
    var s := After(INITIAL, steps);
    var r := s.waiters[k].receiver;
    if s.observed >= s.waiters[k].target { SeenIsQuiet(s, r); }
    if WillCall(s, r) {
      var rest := CallComes(s, r);
      assert NeverAdded(rest, r) && InFlight(After(s, rest), r);
    } else {
      forall rest | NeverAdded(rest, r) ensures !InFlight(After(s, rest), r) {
        NeverCalledAgain(s, rest, r);
        CallsInFlight(After(s, rest), r);
      }
    }
  }

  lemma CallsInFlight(s: State, receiver: nat)
    ensures InFlight(s, receiver) ==> WillCall(s, receiver)
  {
  }

  // ---------------------------------------------------------------------------
  // Stopping too early
  // ---------------------------------------------------------------------------

  const ENTRY := Entry(1, 0, "a", None)
  const KEYS := [Key(1, 0, "a")]

  lemma OneReceiver() returns (steps: seq<Step>)
    ensures After(INITIAL, steps) == INITIAL.(entries := [ENTRY], generation := 2, history := [[], [], KEYS])
  {
    hide After;
    EmptyRun();
    steps := Extended([], User(Add(1, "a", 0)));
    assert After(INITIAL, steps) == INITIAL.(entries := [ENTRY], change := Some(Changed));
    steps := Extended(steps, User(Publish));
    assert Keys([ENTRY]) == KEYS;
  }

  /** A receiver is registered and the receive thread calls its timer. */
  lemma TimerInFlight() returns (steps: seq<Step>)
    ensures After(INITIAL, steps)
            == State([ENTRY], 2, 2, false, None, [], InTick(0, []), [ENTRY], 2, 0, 0, [[], [], KEYS], map[], {}, 0, 0)
  {
    hide After, Keys;
    steps := OneReceiver();
    steps := Extended(steps, Rx(Loop));
    steps := Extended(steps, Rx(CheckGeneration));
    steps := Extended(steps, Rx(CopyEntries));
    assert After(INITIAL, steps).phase == Ticking([ENTRY]);
    steps := Extended(steps, Rx(NextTimer));
    assert [ENTRY][1..] == [];
  }

  lemma EmptyRun()
    ensures After(INITIAL, []) == INITIAL
  {
  }

  lemma Extended(steps: seq<Step>, step: Step) returns (longer: seq<Step>)
    ensures longer == steps + [step] && After(INITIAL, longer) == Stepped(After(INITIAL, steps), step)
  {
    hide Stepped;
    AfterOneMore(INITIAL, steps, step);
    longer := steps + [step];
  }

  /**
    A Context that is stopped once its entries are empty, but while a remove() still waits, lets that
    remove() return with the receiver's callback in flight.
  */
  lemma StopReleasesARemoveEarly() returns (steps: seq<Step>)
    ensures var s := After(INITIAL, steps);
            s.entries == [] && 0 in s.returned && InFlight(s, 0)
  {
    hide After;
    steps := TimerInFlight();
    steps := Extended(steps, User(Remove(0)));
    steps := Extended(steps, User(Publish));
    var s := After(INITIAL, steps);
    assert s.entries == [] && s.waiters == [Waiter(0, 3)] && s.gone == map[0 := 3] && s.phase == InTick(0, []);
    steps := Extended(steps, User(Stop));
    steps := Extended(steps, User(Return(0)));
  }
}
