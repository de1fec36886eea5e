/** Which receiver each datagram reaches, and which calls the receive thread makes in any interleaving. */
module RegistryCalls {
  import opened Bytes
  import opened Registry
  import opened RegistryProtocol
  import opened RegistrySafety
  import opened Seqs
  import opened Wrappers

  // ---------------------------------------------------------------------------
  // The registry as a map from addresses to receivers
  // ---------------------------------------------------------------------------

  /** An address leads to the receiver of its entry. */
  lemma EntryOf(entries: seq<Entry>, ip: U32)
    requires Unique(entries)
    ensures match ReceiverOf(entries, ip)
            case Some(r) => exists k :: 0 <= k < |entries| && entries[k].ip == ip && entries[k].receiver == r
            case None => forall k :: 0 <= k < |entries| ==> entries[k].ip != ip
  {
    if HasIp(entries, ip) {
      var k :| 0 <= k < |entries| && entries[k].ip == ip;
      assert ReceiverOf(entries, ip) == Some(entries[k].receiver);
    }
  }

  /** Two registries lead an address to the same receiver if they have the same entries of it. */
  lemma SameReceiver(a: seq<Entry>, b: seq<Entry>, ip: U32)
    requires Unique(a) && Unique(b)
    requires forall i :: 0 <= i < |a| && a[i].ip == ip ==>
                           exists k :: 0 <= k < |b| && b[k].ip == ip && b[k].receiver == a[i].receiver
    requires forall k :: 0 <= k < |b| && b[k].ip == ip ==> HasIp(a, ip)
    ensures ReceiverOf(a, ip) == ReceiverOf(b, ip)
  {
    hide ReceiverOf;
    EntryOf(a, ip);
    EntryOf(b, ip);
  }

  /** add() takes exactly a new address with a new serial, and only then that address leads to the receiver. */
  lemma AddRoutes(entries: seq<Entry>, ip: U32, serial: string, receiver: nat, x: U32)
    requires Unique(entries)
    ensures var free := forall k :: 0 <= k < |entries| ==> entries[k].ip != ip && entries[k].serial != serial;
            && (AddOutcome(entries, ip, serial) == Added <==> free)
            && (AddOutcome(entries, ip, serial) == DuplicateIp
                <==> exists k :: 0 <= k < |entries| && entries[k].ip == ip)
            && ReceiverOf(AfterAdd(entries, ip, serial, receiver), x)
               == if free && x == ip then Some(receiver) else ReceiverOf(entries, x)
  {
    hide ReceiverOf;
    var r := AfterAdd(entries, ip, serial, receiver);
    if AddOutcome(entries, ip, serial) == Added {
      assert r[|entries|] == Entry(ip, receiver, serial, None);
      assert forall k :: 0 <= k < |entries| ==> r[k] == entries[k];
      if x == ip {
        EntryOf(r, x);
        OneEntry(r, |entries|, ip);
      } else {
        SameReceiver(entries, r, x);
      }
    }
  }

  lemma OneEntry(entries: seq<Entry>, k: nat, ip: U32)
    requires Unique(entries) && k < |entries| && entries[k].ip == ip
    ensures ReceiverOf(entries, ip) == Some(entries[k].receiver)
  {
  }

  /**
    rekey() moves a registered receiver to an address that is free: that address leads to it, its former
    one nowhere, and all others where they did. Otherwise nothing changes.
  */
  lemma RekeyRoutes(entries: seq<Entry>, receiver: nat, ip: U32, x: U32)
    requires Unique(entries)
    ensures var k, r := FirstOf(entries, receiver), AfterRekey(entries, receiver, ip);
            if k < |entries| && forall i :: 0 <= i < |entries| ==> entries[i].ip != ip then
              && r[k] == entries[k].(ip := ip)
              && ReceiverOf(r, x) == if x == ip then Some(receiver) else if x == entries[k].ip then None
                                     else ReceiverOf(entries, x)
            else r == entries
  {
    hide ReceiverOf;
    var k, r := FirstOf(entries, receiver), AfterRekey(entries, receiver, ip);
    if Moves(entries, receiver, ip) {
      assert forall i :: 0 <= i < |r| && i != k ==> r[i] == entries[i];
      if x == ip {
        OneEntry(r, k, ip);
      } else if x == entries[k].ip {
        EntryOf(r, x);
      } else {
        assert entries[k].ip != x && r[k].ip != x;
        forall i | 0 <= i < |r| && r[i].ip == x ensures HasIp(entries, x) { assert entries[i].ip == x; }
        SameReceiver(entries, r, x);
      }
    }
  }

  /** After remove() no address leads to the receiver, and all others lead where they did. */
  lemma EraseRoutes(entries: seq<Entry>, receiver: nat, x: U32)
    requires Unique(entries)
    ensures ReceiverOf(AfterErase(entries, receiver), x)
            == if ReceiverOf(entries, x) == Some(receiver) then None else ReceiverOf(entries, x)
  {
    hide ReceiverOf, AfterErase;
    var r := AfterErase(entries, receiver);
    EntryOf(entries, x);
    EntryOf(r, x);
    if ReceiverOf(entries, x).Some? {
      var k :| 0 <= k < |entries| && entries[k].ip == x && entries[k].receiver == ReceiverOf(entries, x).value;
      if entries[k].receiver != receiver {
        assert entries[k] in r;
        var j :| 0 <= j < |r| && r[j] == entries[k];
        OneEntry(r, j, x);
      }
    }
    if ReceiverOf(r, x).Some? {
      var j :| 0 <= j < |r| && r[j].ip == x && r[j].receiver == ReceiverOf(r, x).value;
      assert r[j] in entries;
      var k :| 0 <= k < |entries| && entries[k] == r[j];
      OneEntry(entries, k, x);
    }
  }

  // ---------------------------------------------------------------------------
  // The calls of a batch
  // ---------------------------------------------------------------------------

  /** The datagrams of known sources, in order. */
  function Known(snapshot: seq<Entry>, batch: seq<U32>): (ips: seq<U32>) {
    if batch == [] then []
    else
      var before, ip := Known(snapshot, batch[..|batch| - 1]), batch[|batch| - 1];
      if HasIp(snapshot, ip) then before + [ip] else before
  }

  /** Every datagram of a known source makes one call, in order, of the receiver registered for it. */
  lemma {:induction false} CallsAreRouted(snapshot: seq<Entry>, batch: seq<U32>)
    requires Unique(snapshot)
    ensures var calls, ips := Calls(snapshot, batch), Known(snapshot, batch);
            && |calls| == |ips|
            && (forall i :: 0 <= i < |calls| ==> calls[i].ip == ips[i])
            && (forall i :: 0 <= i < |calls| ==>
                  exists k :: 0 <= k < |snapshot| && snapshot[k].ip == calls[i].ip
                              && snapshot[k].receiver == calls[i].receiver)
  {
    hide ReceiverOf, Unique;
    if batch != [] {
      CallsAreRouted(snapshot, batch[..|batch| - 1]);
      EntryOf(snapshot, batch[|batch| - 1]);
    }
  }

  /** The call for one datagram. */
  function CallOf(snapshot: seq<Entry>, ip: U32): (calls: seq<Call>) {
    match ReceiverOf(snapshot, ip)
    case Some(r) => [Call(r, ip)]
    case None => []
  }

  lemma {:induction false} CallsSplit(snapshot: seq<Entry>, a: seq<U32>, b: seq<U32>)
    ensures Calls(snapshot, a + b) == Calls(snapshot, a) + Calls(snapshot, b)
  {
    hide ReceiverOf;
    if b == [] {
      assert a + b == a;
    } else {
      var init, ip := b[..|b| - 1], b[|b| - 1];
      CallsSplit(snapshot, a, init);
      assert (a + b)[..|a + b| - 1] == a + init;
      Assoc(Calls(snapshot, a), Calls(snapshot, init), CallOf(snapshot, ip));
    }
  }

  lemma FirstCall(snapshot: seq<Entry>, batch: seq<U32>)
    requires batch != []
    ensures Calls(snapshot, batch) == CallOf(snapshot, batch[0]) + Calls(snapshot, batch[1..])
  {
    hide ReceiverOf;
    assert batch == [batch[0]] + batch[1..];
    CallsSplit(snapshot, [batch[0]], batch[1..]);
    assert [batch[0]][..0] == [] && Calls(snapshot, []) == [];
    assert Calls(snapshot, [batch[0]]) == CallOf(snapshot, batch[0]);
  }

  // ---------------------------------------------------------------------------
  // Any interleaving
  // ---------------------------------------------------------------------------

  /** The receive thread is in the middle of dispatching a batch. */
  predicate InBatch(s: State) {
    s.phase.Dispatching? || s.phase.InDatagram?
  }

  /** The call of on_datagram that a step begins: the first datagram left goes to the receiver now in flight. */
  function Begun(s: State, step: Step): (calls: seq<Call>) {
    var t := Stepped(s, step);
    if s.phase.Dispatching? && t.phase.InDatagram? && s.phase.batch != [] then
      [Call(t.phase.receiver, s.phase.batch[0])]
    else []
  }

  function Made(s: State, steps: seq<Step>): (calls: seq<Call>) {
    if steps == [] then []
    else Made(s, steps[..|steps| - 1]) + Begun(After(s, steps[..|steps| - 1]), steps[|steps| - 1])
  }

  /** The calls still to be made for the batch. */
  function Ahead(s: State): (calls: seq<Call>) {
    if InBatch(s) then Calls(s.snapshot, s.phase.batch) else []
  }

  lemma StepCalls(s: State, step: Step)
    requires InBatch(s)
    ensures Begun(s, step) + Ahead(Stepped(s, step)) == Ahead(s)
    ensures InBatch(Stepped(s, step)) || Stepped(s, step).phase == Polling
  {
    hide Calls, ReceiverOf;
    match step {
      case User(u) =>
        if UserEnabled(s, u) { UserStepLeavesPhase(s, u); }
      case Rx(r) =>
        if RxEnabled(s, r) && r.NextDatagram? {
          if s.phase.batch != [] { FirstCall(s.snapshot, s.phase.batch); } else { NoCalls(s.snapshot); }
        }
    }
  }

  lemma NoCalls(snapshot: seq<Entry>)
    ensures Calls(snapshot, []) == []
  {
  }

  /**
    Any interleaving from where a batch is dispatched: the calls made so far, followed by those still to
    come, are those of the batch in the snapshot. When the thread is done with the batch, it has made
    exactly these, in order.
  */
  lemma {:induction false} BatchMakesItsCalls(s: State, steps: seq<Step>)
    requires InBatch(s)
    requires forall k :: 0 <= k < |steps| ==> InBatch(After(s, steps[..k]))
    ensures Made(s, steps) + Ahead(After(s, steps)) == Calls(s.snapshot, s.phase.batch)
    ensures InBatch(After(s, steps)) || After(s, steps).phase == Polling
  {
    hide Calls, Stepped, Begun, Ahead, InBatch;
    if steps == [] {
      AheadAtFirst(s);
    } else {
      var n := |steps| - 1;
      forall k | 0 <= k < n ensures InBatch(After(s, steps[..n][..k])) { assert steps[..n][..k] == steps[..k]; }
      assert InBatch(After(s, steps[..n]));
      BatchMakesItsCalls(s, steps[..n]);
      StepCalls(After(s, steps[..n]), steps[n]);
      var t := After(s, steps[..n]);
      Assoc(Made(s, steps[..n]), Begun(t, steps[n]), Ahead(Stepped(t, steps[n])));
    }
  }

  lemma AheadAtFirst(s: State)
    requires InBatch(s)
    ensures [] + Ahead(s) == Calls(s.snapshot, s.phase.batch)
  {
  }

  /** The receivers whose timer is still to be called, and the one in flight. */
  function TimersAhead(s: State): (receivers: seq<nat>) {
    match s.phase
    case Ticking(timers) => Receivers(timers)
    case InTick(_, timers) => Receivers(timers)
    case _ => []
  }

  function Receivers(entries: seq<Entry>): (r: seq<nat>)
    ensures |r| == |entries|
    ensures forall i :: 0 <= i < |r| ==> r[i] == entries[i].receiver
  {
    seq(|entries|, i requires 0 <= i < |entries| => entries[i].receiver)
  }

  /** The call of on_timer that a step begins. */
  function Ticked(s: State, step: Step): (receivers: seq<nat>) {
    var t := Stepped(s, step);
    if s.phase.Ticking? && t.phase.InTick? then [t.phase.receiver] else []
  }

  function AllTicked(s: State, steps: seq<Step>): (receivers: seq<nat>) {
    if steps == [] then []
    else AllTicked(s, steps[..|steps| - 1]) + Ticked(After(s, steps[..|steps| - 1]), steps[|steps| - 1])
  }

  predicate InTimers(s: State) {
    s.phase.Ticking? || s.phase.InTick?
  }

  lemma StepTicks(s: State, step: Step)
    requires InTimers(s)
    ensures Ticked(s, step) + TimersAhead(Stepped(s, step)) == TimersAhead(s)
    ensures InTimers(Stepped(s, step)) || Stepped(s, step).phase == Polling
  {
    hide UserStep, Continued, NextDatagramStep;
    match step {
      case User(u) =>
        if UserEnabled(s, u) { UserStepLeavesPhase(s, u); }
      case Rx(_) =>
    }
  }

  /** Any interleaving: a pass over the timers calls that of every entry of the snapshot, in order. */
  lemma {:induction false} TimersAreCalled(s: State, steps: seq<Step>)
    requires InTimers(s)
    requires forall k :: 0 <= k < |steps| ==> InTimers(After(s, steps[..k]))
    ensures AllTicked(s, steps) + TimersAhead(After(s, steps)) == TimersAhead(s)
    ensures InTimers(After(s, steps)) || After(s, steps).phase == Polling
  {
    hide Stepped, Ticked, TimersAhead, InTimers;
    if steps != [] {
      var n := |steps| - 1;
      forall k | 0 <= k < n ensures InTimers(After(s, steps[..n][..k])) { assert steps[..n][..k] == steps[..k]; }
      assert InTimers(After(s, steps[..n]));
      TimersAreCalled(s, steps[..n]);
      var t := After(s, steps[..n]);
      StepTicks(t, steps[n]);
      Assoc(AllTicked(s, steps[..n]), Ticked(t, steps[n]), TimersAhead(Stepped(t, steps[n])));
    }
  }
}
