/** Frames of the frame-counter policy before it falls back: one frame counter value each. */
module CounterFrames {
  import opened AssemblerFrames
  import opened AssemblerRuns
  import opened FrameAssembler
  import opened TimeMapper
  import Fallback

  predicate KeepsPolicy(ops: seq<Op>) {
    forall k :: 0 <= k < |ops| ==> !ops[k].SetPolicy?
  }

  /** The policy after one operation, and whether the time window decided about a packet. */
  lemma StepIsUntimed(s: State, op: Op)
    requires s.policy.mode == FrameCounter && !op.SetPolicy? && !Applied(s, op).0.fallback
    ensures Applied(s, op).0.policy == s.policy && !s.fallback
    ensures ArrivalOf(s, op).Some? ==> !ArrivalOf(s, op).value.timed
  {
    hide Drop, Late, Mapped, PointsOf, LatestNs, Closes, StaysOnGrid;
    if s.fallback { Fallback.FallbackStays(s, op); }
    var a := ArrivalOf(s, op);
    if a.Some? {
      var r := Registered(s, a.value.packet.header, op.recvNs);
      Fallback.AcceptedFallback(r, a.value.packet, a.value.t0, a.value.changed, a.value.dropped);
    }
  }

  /** The packets accepted by the first `i` operations. */
  function AcceptedBy(policy: FramePolicy, timestamps: TimestampPolicy, ops: seq<Op>, i: nat): (n: nat)
    requires i <= |ops|
  {
    |Traced(policy, timestamps, ops[..i]).accepted|
  }

  lemma OneMoreOp(policy: FramePolicy, timestamps: TimestampPolicy, ops: seq<Op>, i: nat)
    requires i < |ops|
    ensures Traced(policy, timestamps, ops[..i + 1]) == Stepped(Traced(policy, timestamps, ops[..i]), ops[i])
  {
    hide Stepped;
    assert ops[..i + 1][..i] == ops[..i];
  }

  /** Accepted packets stay accepted. */
  lemma {:induction false} AcceptedGrows(policy: FramePolicy, timestamps: TimestampPolicy, ops: seq<Op>, i: nat)
    requires i <= |ops|
    ensures Traced(policy, timestamps, ops[..i]).accepted <= Traced(policy, timestamps, ops).accepted
    decreases |ops| - i
  {
    hide Traced, Applied, ArrivalOf;
    if i < |ops| {
      OneMoreOp(policy, timestamps, ops, i);
      AcceptedGrows(policy, timestamps, ops, i + 1);
    } else {
      assert ops[..i] == ops;
    }
  }

  /**
    From operation `i` to operation `j` the policy was not set, it was the frame-counter policy, and it
    had not fallen back at the end.
  */
  ghost predicate CounterEpoch(policy: FramePolicy, timestamps: TimestampPolicy, ops: seq<Op>, i: nat, j: nat) {
    && i <= j <= |ops|
    && KeepsPolicy(ops[i..j])
    && Traced(policy, timestamps, ops[..i]).state.policy.mode == FrameCounter
    && !Traced(policy, timestamps, ops[..j]).state.fallback
  }

  /** In such an epoch only the frame counter decided about packets. */
  lemma {:induction false} UntimedInEpoch(
    policy: FramePolicy, timestamps: TimestampPolicy, ops: seq<Op>, i: nat, j: nat)
    requires CounterEpoch(policy, timestamps, ops, i, j)
    ensures AcceptedBy(policy, timestamps, ops, i) <= AcceptedBy(policy, timestamps, ops, j)
    ensures Traced(policy, timestamps, ops[..j]).state.policy.mode == FrameCounter
    ensures var accepted := Traced(policy, timestamps, ops[..j]).accepted;
            forall x :: AcceptedBy(policy, timestamps, ops, i) <= x < |accepted| ==> !accepted[x].timed
    decreases j
  {
    hide Applied, ArrivalOf, Traced;
    if i < j {
      var before, op := Traced(policy, timestamps, ops[..j - 1]), ops[j - 1];
      OneMoreOp(policy, timestamps, ops, j - 1);
      assert ops[i..j][j - 1 - i] == op;
      EpochPolicy(policy, timestamps, ops, i, j - 1);
      StepIsUntimed(before.state, op);
      UntimedInEpoch(policy, timestamps, ops, i, j - 1);
    }
  }

  lemma {:induction false} EpochPolicy(policy: FramePolicy, timestamps: TimestampPolicy, ops: seq<Op>, i: nat, j: nat)
    requires i <= j <= |ops|
    requires forall x :: i <= x < j ==> !ops[x].SetPolicy?
    ensures Traced(policy, timestamps, ops[..j]).state.policy == Traced(policy, timestamps, ops[..i]).state.policy
    decreases j
  {
    hide ArrivalOf, Applied, Traced;
    if i < j {
      OneMoreOp(policy, timestamps, ops, j - 1);
      EpochPolicy(policy, timestamps, ops, i, j - 1);
      AppliedKeepsPolicy(Traced(policy, timestamps, ops[..j - 1]).state, ops[j - 1]);
    }
  }

  lemma AppliedKeepsPolicy(s: State, op: Op)
    requires !op.SetPolicy?
    ensures Applied(s, op).0.policy == s.policy
  {
    hide Drop, Mapped, Accepted, Watched;
    var a := ArrivalOf(s, op);
    if a.Some? {
      var r := Registered(s, a.value.packet.header, op.recvNs);
      Fallback.AcceptedFallback(r, a.value.packet, a.value.t0, a.value.changed, a.value.dropped);
    }
  }

  /** The packets of piece `p` follow those of the pieces before it. */
  lemma {:induction false} PieceAt(pieces: seq<Piece>, p: nat)
    requires p < |pieces|
    ensures var at, group := |Flattened(pieces[..p])|, pieces[p].arrivals;
            at + |group| <= |Flattened(pieces)| && Flattened(pieces)[at..at + |group|] == group
    decreases |pieces|
  {
    var n := |pieces| - 1;
    if p < n {
      PieceAt(pieces[..n], p);
      assert pieces[..n][..p] == pieces[..p];
    }
  }

  /** Frame `k` of a run with its packets, and where they are among the accepted ones. */
  lemma GroupOfFrame(policy: FramePolicy, timestamps: TimestampPolicy, ops: seq<Op>, k: nat)
    returns (group: seq<Arrival>, at: nat)
    requires k < |Outputs(policy, timestamps, ops).1|
    ensures FrameIsExact(Outputs(policy, timestamps, ops).1[k], k, group)
    ensures var accepted := Traced(policy, timestamps, ops).accepted;
            at + |group| <= |accepted| && accepted[at..at + |group|] == group
  {
    hide Traced, Outputs, Flattened;
    RunKeeps(policy, timestamps, ops);
    OutputsAreDelivered(policy, timestamps, ops);
    var t := Traced(policy, timestamps, ops);
    var p := PieceOfFrame(t.pieces, k);
    assert PieceMatches(t.pieces, p);
    PieceAt(t.pieces, p);
    group, at := t.pieces[p].arrivals, |Flattened(t.pieces[..p])|;
    assert t.accepted[at..at + |group|] == Flattened(t.pieces)[at..at + |group|];
  }

  /**
    Every run, with any changes of policy: a delivered frame whose packets were all accepted under one
    frame-counter policy, before it fell back, holds packets of one frame counter value, its own.
  */
  lemma OneCounterPerFrame(
    policy: FramePolicy, timestamps: TimestampPolicy, ops: seq<Op>, i: nat, j: nat, k: nat)
    returns (group: seq<Arrival>, at: nat)
    requires CounterEpoch(policy, timestamps, ops, i, j)
    requires k < |Outputs(policy, timestamps, ops).1|
    ensures FrameIsExact(Outputs(policy, timestamps, ops).1[k], k, group)
    ensures var accepted := Traced(policy, timestamps, ops).accepted;
            at + |group| <= |accepted| && accepted[at..at + |group|] == group
    ensures AcceptedBy(policy, timestamps, ops, i) <= at && at + |group| <= AcceptedBy(policy, timestamps, ops, j) ==>
              forall x :: 0 <= x < |group| ==>
                            group[x].packet.header.frameCnt == Outputs(policy, timestamps, ops).1[k].frameCnt
  {
    hide Traced, Outputs, CounterEpoch, Coherent;
    EpochBounds(policy, timestamps, ops, i, j);
    group, at := GroupOfFrame(policy, timestamps, ops, k);
    if AcceptedBy(policy, timestamps, ops, i) <= at && at + |group| <= AcceptedBy(policy, timestamps, ops, j) {
      UntimedInEpoch(policy, timestamps, ops, i, j);
      AcceptedGrows(policy, timestamps, ops, j);
      var until, all := Traced(policy, timestamps, ops[..j]).accepted, Traced(policy, timestamps, ops).accepted;
      forall x | 0 <= x < |group| ensures !group[x].timed {
        assert group[x] == all[at + x] == until[at + x];
      }
      forall x | 0 <= x < |group|
        ensures group[x].packet.header.frameCnt == Outputs(policy, timestamps, ops).1[k].frameCnt
      {
        CounterFramesAreUniform(group, x);
      }
    }
  }

  lemma EpochBounds(policy: FramePolicy, timestamps: TimestampPolicy, ops: seq<Op>, i: nat, j: nat)
    requires CounterEpoch(policy, timestamps, ops, i, j)
    ensures i <= j <= |ops|
  {
  }
}
