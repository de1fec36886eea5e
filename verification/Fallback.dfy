/**
  The one-way fallback of the frame-counter policy to the time window, over whole runs: exactly
  when it fires, and that it fires at most once per policy and stays on.
*/
module Fallback {
  import opened AssemblerRuns
  import opened FrameAssembler
  import opened Packets
  import opened TimeMapper
  import opened Wrappers

  /**
    A run seen per policy: `epoch` holds the packets accepted since the last set_policy (or the
    start) and `firedBefore` the fallback count at that point.
  */
  datatype Watch = Watch(state: State, epoch: seq<Arrival>, firedBefore: nat)

  function Advance(w: Watch, op: Op): (w': Watch) {
    var state := Applied(w.state, op).0;
    if op.SetPolicy? then Watch(state, [], state.counters.frameCntFallback)
    else
      var a := ArrivalOf(w.state, op);
      Watch(state, if a.Some? then w.epoch + [a.value] else w.epoch, w.firedBefore)
  }

  function WatchRun(policy: FramePolicy, timestamps: TimestampPolicy, ops: seq<Op>): (w: Watch) {
    if ops == [] then Watch(Fresh(policy, timestamps), [], 0)
    else Advance(WatchRun(policy, timestamps, ops[..|ops| - 1]), ops[|ops| - 1])
  }

  function EarliestNs(epoch: seq<Arrival>): (t: nat)
    requires epoch != []
  {
    var last := epoch[|epoch| - 1].t0;
    if |epoch| == 1 then last
    else
      var before := EarliestNs(epoch[..|epoch| - 1]);
      if before <= last then before else last
  }

  predicate CounterStands(epoch: seq<Arrival>) {
    forall j :: 0 <= j < |epoch| ==> !epoch[j].changed
  }

  /** The packet that ends `epoch` finds the frame counter unchanged for two windows. */
  predicate FiresAtEnd(epoch: seq<Arrival>, window: nat) {
    && epoch != []
    && CounterStands(epoch)
    && epoch[|epoch| - 1].t0 >= EarliestNs(epoch) + 2 * window
  }

  ghost predicate Fires(epoch: seq<Arrival>, window: nat) {
    exists k :: 0 < k <= |epoch| && FiresAtEnd(epoch[..k], window)
  }

  lemma FiresWithOneMore(epoch: seq<Arrival>, a: Arrival, window: nat)
    ensures Fires(epoch + [a], window) <==> Fires(epoch, window) || FiresAtEnd(epoch + [a], window)
  {
    var longer := epoch + [a];
    if Fires(epoch, window) {
      var k :| 0 < k <= |epoch| && FiresAtEnd(epoch[..k], window);
      assert longer[..k] == epoch[..k];
    }
    if FiresAtEnd(longer, window) {
      assert longer[..|longer|] == longer;
    }
    if Fires(longer, window) {
      var k :| 0 < k <= |longer| && FiresAtEnd(longer[..k], window);
      if k <= |epoch| { assert longer[..k] == epoch[..k]; } else { assert longer[..k] == longer; }
    }
  }

  ghost predicate Invariant(w: Watch) {
    var s := w.state;
    && s.firstTime == (if w.epoch == [] then None else Some(EarliestNs(w.epoch)))
    && s.counters.frameCntFallback == w.firedBefore + (if s.fallback then 1 else 0)
    && (s.policy.mode == TimeWindow ==> !s.fallback)
    && (s.policy.mode == FrameCounter ==> (s.fallback <==> Fires(w.epoch, Window(s.policy))))
    && (s.policy.mode == FrameCounter && !s.fallback ==> (s.frameCntChangedEver <==> !CounterStands(w.epoch)))
  }

  /** The fields of the fallback after an accepted packet. */
  lemma AcceptedFallback(s: State, p: Packet, t0: nat, changed: bool, dropped: nat)
    ensures var s', w := Accepted(s, p, t0, changed, dropped).0, Watched(s, changed, t0);
            && s'.policy == s.policy && s'.firstTime == w.firstTime && s'.fallback == w.fallback
            && s'.frameCntChangedEver == w.frameCntChangedEver
            && s'.counters.frameCntFallback == w.counters.frameCntFallback
  {
  }

  lemma EarliestOfOneMore(epoch: seq<Arrival>, a: Arrival)
    ensures EarliestNs(epoch + [a]) == Earliest(if epoch == [] then None else Some(EarliestNs(epoch)), a.t0)
    ensures CounterStands(epoch + [a]) <==> CounterStands(epoch) && !a.changed
  {
    var longer := epoch + [a];
    assert longer[..|longer| - 1] == epoch && longer[|epoch|] == a;
    if CounterStands(longer) {
      assert forall j :: 0 <= j < |epoch| ==> epoch[j] == longer[j];
    }
  }

  lemma PushKeeps(w: Watch, op: Op, a: Arrival)
    requires Invariant(w) && ArrivalOf(w.state, op) == Some(a)
    ensures Invariant(Advance(w, op))
  {
    var s := Registered(w.state, a.packet.header, op.recvNs);
    assert Applied(w.state, op).0 == Accepted(s, a.packet, a.t0, a.changed, a.dropped).0;
    AcceptedFallback(s, a.packet, a.t0, a.changed, a.dropped);
    EarliestOfOneMore(w.epoch, a);
    FiresWithOneMore(w.epoch, a, Window(w.state.policy));
  }

  lemma AdvanceKeeps(w: Watch, op: Op)
    requires Invariant(w)
    ensures Invariant(Advance(w, op))
  {
    var a := ArrivalOf(w.state, op);
    if a.Some? {
      PushKeeps(w, op, a.value);
    }
  }

  lemma {:induction false} RunKeeps(policy: FramePolicy, timestamps: TimestampPolicy, ops: seq<Op>)
    ensures Invariant(WatchRun(policy, timestamps, ops))
  {
    if ops != [] {
      RunKeeps(policy, timestamps, ops[..|ops| - 1]);
      AdvanceKeeps(WatchRun(policy, timestamps, ops[..|ops| - 1]), ops[|ops| - 1]);
    }
  }

  /**
    Over every run: the assembler has fallen back exactly when, at some packet since the policy
    was set, no packet since then had changed the frame counter and the packet lay two windows
    after the earliest one; and the fallback was counted exactly once for this policy.
  */
  lemma FallbackIsExact(policy: FramePolicy, timestamps: TimestampPolicy, ops: seq<Op>)
    ensures var w := WatchRun(policy, timestamps, ops);
            && (w.state.fallback <==>
                  w.state.policy.mode == FrameCounter && Fires(w.epoch, Window(w.state.policy)))
            && w.state.counters.frameCntFallback - w.firedBefore == (if w.state.fallback then 1 else 0)
  {
    RunKeeps(policy, timestamps, ops);
  }

  /** Once on, the fallback stays on until the policy is set again. */
  lemma FallbackStays(s: State, op: Op)
    requires s.fallback && !op.SetPolicy?
    ensures Applied(s, op).0.fallback
    ensures Applied(s, op).0.counters.frameCntFallback == s.counters.frameCntFallback
  {
    var a := ArrivalOf(s, op);
    if a.Some? {
      AcceptedFallback(Registered(s, a.value.packet.header, op.recvNs), a.value.packet, a.value.t0, a.value.changed,
          a.value.dropped);
    }
  }
}
