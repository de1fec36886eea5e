/**
  The protocol between the user threads and the receive thread of a Context: any interleaving of
  their steps. User threads change the registry under the mutex, in two steps since the receive
  thread reads the generation without it. The receive thread calls receivers from a snapshot.
*/
module RegistryProtocol {
  import opened Bytes
  import opened Registry
  import opened Wrappers

  /** What the user thread that holds the mutex has changed but not yet published. */
  datatype Change = Changed | Erased(receiver: nat)

  /** A remove() that waits for the receive thread to see its generation. */
  datatype Waiter = Waiter(receiver: nat, target: nat)

  /** What the receive thread does after a refresh. */
  datatype Then = Timers | Dispatch(batch: seq<U32>)

  /** Where the receive thread is; `InTick` and `InDatagram` are callbacks in flight. */
  datatype Phase =
    | Top
    | Check(next: Then)
    | Lock(next: Then)
    | Ticking(timers: seq<Entry>)
    | InTick(receiver: nat, timers: seq<Entry>)
    | Polling
    | Dispatching(batch: seq<U32>)
    | InDatagram(receiver: nat, batch: seq<U32>)
    | Exited

  /** An entry without its device, which bind() changes without a new generation. */
  datatype Key = Key(ip: U32, receiver: nat, serial: string)

  /**
    The shared state and the receive thread's own. The last five fields only record what happened:
    the registry at each generation, the receivers that are gone and since which generation, those
    whose remove() has returned, the generation when the last batch was received, and the number of
    datagrams handed over.
  */
  datatype State = State(
    entries: seq<Entry>, generation: nat, observed: nat, stop: bool, change: Option<Change>,
    waiters: seq<Waiter>, phase: Phase, snapshot: seq<Entry>, seen: nat, datagrams: nat, unknownSource: nat,
    history: seq<seq<Key>>, gone: map<nat, nat>, returned: set<nat>, received: nat, delivered: nat)

  const INITIAL := State([], 1, 0, false, None, [], Top, [], 0, 0, 0, [[], []], map[], {}, 0, 0)

  datatype UserOp =
    | Add(ip: U32, serial: string, receiver: nat)
    | Bind(receiver: nat, device: Option<nat>)
    | Rekey(receiver: nat, ip: U32)
    | Remove(receiver: nat)
    | Publish
    | Return(waiter: nat)
    | Stop

  datatype RxOp =
    | Loop
    | CheckGeneration
    | CopyEntries
    | NextTimer
    | TimerDone
    | Poll
    | Receive(datagrams: seq<U32>)
    | NextDatagram
    | DatagramDone

  datatype Step = User(user: UserOp) | Rx(rx: RxOp)

  function Keys(entries: seq<Entry>): (k: seq<Key>)
    ensures |k| == |entries|
    ensures forall i :: 0 <= i < |k| ==> k[i] == Key(entries[i].ip, entries[i].receiver, entries[i].serial)
  {
    if entries == [] then []
    else
      var n := |entries| - 1;
      Keys(entries[..n]) + [Key(entries[n].ip, entries[n].receiver, entries[n].serial)]
  }

  predicate Holds(keys: seq<Key>, receiver: nat) {
    exists i :: 0 <= i < |keys| && keys[i].receiver == receiver
  }

  // ---------------------------------------------------------------------------
  // Steps of the user threads
  // ---------------------------------------------------------------------------

  predicate UserEnabled(s: State, step: UserOp) {
    match step
    case Publish => s.change.Some?
    case Return(k) => s.change.None? && k < |s.waiters| && (s.observed >= s.waiters[k].target || s.stop)
    case Stop => true
    case _ => s.change.None?
  }

  function AddStep(s: State, ip: U32, serial: string, receiver: nat): (r: State) {
    if AddOutcome(s.entries, ip, serial) != Added then s
    else s.(entries := AfterAdd(s.entries, ip, serial, receiver), change := Some(Changed),
            gone := s.gone - {receiver}, returned := s.returned - {receiver})
  }

  function PublishStep(s: State): (r: State)
    requires s.change.Some?
  {
    var g := s.generation + 1;
    var published := s.(generation := g, change := None, history := s.history + [Keys(s.entries)]);
    match s.change.value
    case Changed => published
    case Erased(receiver) =>
      published.(waiters := s.waiters + [Waiter(receiver, g)],
                 gone := if receiver in s.gone then s.gone else s.gone[receiver := g])
  }

  /** remove() returns; a receiver that was added again since is not a removed one. */
  function ReturnStep(s: State, k: nat): (r: State)
    requires k < |s.waiters|
  {
    var w := s.waiters[k];
    s.(waiters := s.waiters[..k] + s.waiters[k + 1..],
       returned := if w.receiver in s.gone && s.gone[w.receiver] <= w.target then s.returned + {w.receiver}
           else s.returned)
  }

  function UserStep(s: State, step: UserOp): (r: State)
    requires UserEnabled(s, step)
  {
    match step
    case Add(ip, serial, receiver) => AddStep(s, ip, serial, receiver)
    case Bind(receiver, device) => s.(entries := AfterBind(s.entries, receiver, device))
    case Rekey(receiver, ip) =>
      if Moves(s.entries, receiver, ip) then s.(entries := AfterRekey(s.entries, receiver, ip), change := Some(Changed))
      else s
    case Remove(receiver) => s.(entries := AfterErase(s.entries, receiver), change := Some(Erased(receiver)))
    case Publish => PublishStep(s)
    case Return(k) => ReturnStep(s, k)
    case Stop => s.(stop := true)
  }

  // ---------------------------------------------------------------------------
  // Steps of the receive thread
  // ---------------------------------------------------------------------------

  predicate RxEnabled(s: State, step: RxOp) {
    match step
    case Loop => s.phase.Top?
    case CheckGeneration => s.phase.Check?
    case CopyEntries => s.phase.Lock? && s.change.None?
    case NextTimer => s.phase.Ticking?
    case TimerDone => s.phase.InTick?
    case Poll => s.phase.Polling?
    case Receive(_) => s.phase.Polling?
    case NextDatagram => s.phase.Dispatching?
    case DatagramDone => s.phase.InDatagram?
  }

  /** After a refresh the receive thread runs the timers or dispatches, with its snapshot. */
  function Continued(s: State, next: Then): (r: State) {
    match next
    case Timers => s.(phase := Ticking(s.snapshot))
    case Dispatch(batch) => s.(phase := Dispatching(batch), datagrams := s.datagrams + |batch|)
  }

  function NextDatagramStep(s: State, batch: seq<U32>): (r: State) {
    if batch == [] then s.(phase := Polling)
    else
      match ReceiverOf(s.snapshot, batch[0])
      case None => s.(phase := Dispatching(batch[1..]), unknownSource := s.unknownSource + 1)
      case Some(receiver) => s.(phase := InDatagram(receiver, batch[1..]), delivered := s.delivered + 1)
  }

  function RxStep(s: State, step: RxOp): (r: State)
    requires RxEnabled(s, step)
  {
    match step
    case Loop => if s.stop then s.(phase := Exited) else s.(phase := Check(Timers))
    case CheckGeneration =>
      if s.generation == s.seen then Continued(s, s.phase.next) else s.(phase := Lock(s.phase.next))
    case CopyEntries =>
      Continued(s.(snapshot := s.entries, seen := s.generation, observed := s.generation), s.phase.next)
    case NextTimer =>
      if s.phase.timers == [] then s.(phase := Polling)
      else s.(phase := InTick(s.phase.timers[0].receiver, s.phase.timers[1..]))
    case TimerDone => s.(phase := Ticking(s.phase.timers))
    case Poll => s.(phase := Top)
    case Receive(batch) => s.(phase := Check(Dispatch(batch)), received := s.generation)
    case NextDatagram => NextDatagramStep(s, s.phase.batch)
    case DatagramDone => s.(phase := Dispatching(s.phase.batch))
  }

  /** A step; one that is not enabled does nothing, so every sequence of steps is an interleaving. */
  function Stepped(s: State, step: Step): (r: State) {
    match step
    case User(u) => if UserEnabled(s, u) then UserStep(s, u) else s
    case Rx(r) => if RxEnabled(s, r) then RxStep(s, r) else s
  }

  function After(s: State, steps: seq<Step>): (r: State) {
    if steps == [] then s else Stepped(After(s, steps[..|steps| - 1]), steps[|steps| - 1])
  }

  // ---------------------------------------------------------------------------
  // What every step keeps
  // ---------------------------------------------------------------------------

  /** The registry is unique, its history complete, and the snapshot is what it was at `seen`. */
  ghost predicate Sound(s: State) {
    && Unique(s.entries)
    && |s.history| == s.generation + 1
    && (s.change.None? ==> s.history[s.generation] == Keys(s.entries))
    && s.seen == s.observed <= s.generation
    && Keys(s.snapshot) == s.history[s.seen]
  }

  /** A receiver that is gone has been out of the registry since then. */
  ghost predicate Absent(s: State, receiver: nat, since: nat)
    requires |s.history| == s.generation + 1
  {
    && since <= s.generation
    && !HasReceiver(s.entries, receiver)
    && forall g :: since <= g <= s.generation ==> !Holds(s.history[g], receiver)
  }

  ghost predicate Accounted(s: State)
    requires |s.history| == s.generation + 1
  {
    && (forall r :: r in s.gone ==> Absent(s, r, s.gone[r]))
    && (forall k :: 0 <= k < |s.waiters| ==> s.waiters[k].target <= s.generation)
    && s.returned <= s.gone.Keys
    && (s.change.Some? && s.change.value.Erased? ==> !HasReceiver(s.entries, s.change.value.receiver))
  }

  /** The datagrams the receive thread still has to dispatch. */
  function Outstanding(p: Phase): (n: nat) {
    match p
    case Dispatching(batch) => |batch|
    case InDatagram(_, batch) => |batch|
    case _ => 0
  }

  /** A batch is dispatched with a snapshot no older than when it was received; no datagram is lost. */
  ghost predicate Dispatches(s: State) {
    && s.received <= s.generation
    && (s.phase.Dispatching? || s.phase.InDatagram? ==> s.received <= s.seen)
    && s.datagrams == s.delivered + s.unknownSource + Outstanding(s.phase)
  }

  /** The receive thread is in, or about to make, a call of the receiver. */
  ghost predicate WillCall(s: State, receiver: nat) {
    match s.phase
    case Ticking(timers) => HasReceiver(timers, receiver)
    case InTick(r, timers) => r == receiver || HasReceiver(timers, receiver)
    case Dispatching(batch) => Addressed(s.snapshot, batch, receiver)
    case InDatagram(r, batch) => r == receiver || Addressed(s.snapshot, batch, receiver)
    case _ => false
  }

  ghost predicate Addressed(snapshot: seq<Entry>, batch: seq<U32>, receiver: nat) {
    exists i :: 0 <= i < |batch| && ReceiverOf(snapshot, batch[i]) == Some(receiver)
  }

  /** Only receivers of the snapshot are called. */
  ghost predicate CallsFromSnapshot(s: State) {
    forall r :: WillCall(s, r) ==> HasReceiver(s.snapshot, r)
  }

  ghost predicate Invariant(s: State) {
    Sound(s) && Accounted(s) && Dispatches(s) && CallsFromSnapshot(s)
  }

  lemma KeysHold(entries: seq<Entry>, receiver: nat)
    ensures Holds(Keys(entries), receiver) <==> HasReceiver(entries, receiver)
  {
    if HasReceiver(entries, receiver) {
      var k :| 0 <= k < |entries| && entries[k].receiver == receiver;
      assert Keys(entries)[k].receiver == receiver;
    }
  }

  lemma UserStepIsSound(s: State, u: UserOp)
    requires Sound(s) && UserEnabled(s, u)
    ensures Sound(UserStep(s, u))
  {
    hide AfterErase, AfterRekey, AfterAdd, AfterBind, Keys, Moves;
    if u.Bind? { assert Keys(AfterBind(s.entries, u.receiver, u.device)) == Keys(s.entries); }
  }

  /** Changing the entries brings back no receiver but one that is added. */
  lemma ChangeAccounts(s: State, u: UserOp)
    requires Sound(s) && Accounted(s) && UserEnabled(s, u) && (u.Add? || u.Bind? || u.Rekey? || u.Remove?)
    ensures Accounted(UserStep(s, u))
  {
    hide AfterErase, AfterRekey, AfterAdd, AfterBind, Keys, Unique, Moves, Holds;
    var s' := UserStep(s, u);
    forall r | r in s'.gone ensures Absent(s', r, s'.gone[r]) {
      assert Absent(s, r, s.gone[r]);
    }
  }

  lemma PublishAccounts(s: State)
    requires Sound(s) && Accounted(s) && s.change.Some?
    ensures Accounted(PublishStep(s))
  {
    hide Keys, Unique, Holds, HasReceiver;
    var s' := PublishStep(s);
    forall r | r in s'.gone ensures Absent(s', r, s'.gone[r]) {
      KeysHold(s.entries, r);
      assert r in s.gone ==> Absent(s, r, s.gone[r]);
    }
  }

  lemma ReturnAccounts(s: State, k: nat)
    requires Sound(s) && Accounted(s) && k < |s.waiters|
    ensures Accounted(ReturnStep(s, k))
  {
    hide Keys, Unique, Holds, HasReceiver;
    var s' := ReturnStep(s, k);
    forall r | r in s'.gone ensures Absent(s', r, s'.gone[r]) {
      assert Absent(s, r, s.gone[r]);
    }
  }

  lemma UserStepAccounts(s: State, u: UserOp)
    requires Sound(s) && Accounted(s) && UserEnabled(s, u)
    ensures Accounted(UserStep(s, u))
  {
    match u {
      case Publish => PublishAccounts(s);
      case Return(k) => ReturnAccounts(s, k);
      case Stop =>
        forall r | r in s.gone ensures Absent(UserStep(s, u), r, s.gone[r]) {
          assert Absent(s, r, s.gone[r]);
        }
      case _ => ChangeAccounts(s, u);
    }
  }

  lemma UserStepDispatches(s: State, u: UserOp)
    requires Dispatches(s) && CallsFromSnapshot(s) && UserEnabled(s, u)
    ensures Dispatches(UserStep(s, u)) && CallsFromSnapshot(UserStep(s, u))
  {
    hide AfterErase, AfterRekey, AfterAdd, AfterBind, Keys, HasReceiver, Addressed, Moves;
    var s' := UserStep(s, u);
    assert s'.phase == s.phase && s'.snapshot == s.snapshot;
    assert forall r :: WillCall(s', r) == WillCall(s, r);
  }

  lemma RxStepIsSound(s: State, r: RxOp)
    requires Sound(s) && Accounted(s) && RxEnabled(s, r)
    ensures Sound(RxStep(s, r)) && Accounted(RxStep(s, r))
  {
    hide Unique, Keys, HasReceiver, Holds, NextDatagramStep;
    var s' := RxStep(s, r);
    NextDatagramKeeps(s, if s.phase.Dispatching? then s.phase.batch else []);
    assert s'.entries == s.entries && s'.history == s.history && s'.generation == s.generation;
    assert s'.gone == s.gone && s'.waiters == s.waiters && s'.returned == s.returned && s'.change == s.change;
    forall x | x in s'.gone ensures Absent(s', x, s'.gone[x]) {
      assert Absent(s, x, s.gone[x]);
    }
  }

  /** A dispatch touches only the phase and the counters. */
  lemma NextDatagramKeeps(s: State, batch: seq<U32>)
    ensures var t := NextDatagramStep(s, batch);
            t == s.(phase := t.phase, unknownSource := t.unknownSource, delivered := t.delivered)
  {
  }

  lemma RxStepDispatches(s: State, r: RxOp)
    requires Sound(s) && Dispatches(s) && RxEnabled(s, r)
    ensures Dispatches(RxStep(s, r))
  {
    hide Unique, Keys, HasReceiver, ReceiverOf;
  }

  lemma RxStepCallsFromSnapshot(s: State, r: RxOp)
    requires CallsFromSnapshot(s) && RxEnabled(s, r)
    ensures CallsFromSnapshot(RxStep(s, r))
  {
    hide ReceiverOf;
    var s' := RxStep(s, r);
    forall x | WillCall(s', x) ensures HasReceiver(s'.snapshot, x) {
      assert s'.snapshot == s.snapshot && WillCall(s, x) ==> HasReceiver(s'.snapshot, x);
    }
  }

  lemma StepKeeps(s: State, step: Step)
    requires Invariant(s)
    ensures Invariant(Stepped(s, step))
  {
    hide Sound, Accounted, Dispatches, CallsFromSnapshot, UserStep, RxStep;
    match step {
      case User(u) =>
        if UserEnabled(s, u) {
          UserStepIsSound(s, u);
          UserStepAccounts(s, u);
          UserStepDispatches(s, u);
        }
      case Rx(r) =>
        if RxEnabled(s, r) {
          RxStepIsSound(s, r);
          RxStepDispatches(s, r);
          RxStepCallsFromSnapshot(s, r);
        }
    }
  }

  lemma {:induction false} RunKeeps(s: State, steps: seq<Step>)
    requires Invariant(s)
    ensures Invariant(After(s, steps))
  {
    hide Invariant, Stepped;
    if steps != [] {
      RunKeeps(s, steps[..|steps| - 1]);
      StepKeeps(After(s, steps[..|steps| - 1]), steps[|steps| - 1]);
    }
  }

  lemma InitiallyKept()
    ensures Invariant(INITIAL)
  {
  }
}
