/**
  Where the frame-counter policy cuts before it falls back: exactly between packets of different
  frame counters, and where the frame could not hold the next packet.
*/
module CounterCuts {
  import opened AssemblerFrames
  import opened AssemblerRuns
  import opened CounterFrames
  import opened FrameAssembler
  import opened Packets
  import opened TimeMapper

  /** The next packet cannot join a frame of these packets, whatever its frame counter. */
  predicate CannotJoin(group: seq<Arrival>, a: Arrival, window: nat)
    requires group != []
  {
    var h, first := a.packet.header, group[0];
    || h.dataType != first.packet.header.dataType
    || h.timeType != first.packet.header.timeType
    || a.t0 + window <= first.t0
    || a.t0 + SpanNs(h) > first.t0 + 0xFFFF_FFFF
  }

  predicate CutBefore(group: seq<Arrival>, a: Arrival, window: nat)
    requires group != []
  {
    || a.packet.header.frameCnt != group[|group| - 1].packet.header.frameCnt
    || CannotJoin(group, a, window)
  }

  /** Cut between each two consecutive groups, and nowhere inside one after its first `skip` packets. */
  ghost predicate CutThere(groups: seq<seq<Arrival>>, skip: nat, window: nat) {
    && (forall y :: 0 <= y < |groups| ==> groups[y] != [])
    && (forall y :: 0 < y < |groups| ==> CutBefore(groups[y - 1], groups[y][0], window))
    && (forall y, x :: 0 <= y < |groups| && 0 < x < |groups[y]| && (y == 0 ==> skip <= x) ==>
          !CutBefore(groups[y][..x], groups[y][x], window))
  }

  /** The packets of the pieces from `first` on and of the open frame. */
  function Groups(t: Trace, first: nat): (groups: seq<seq<Arrival>>)
    requires first <= |t.pieces|
  {
    seq(|t.pieces| - first, y requires 0 <= y < |t.pieces| - first => t.pieces[first + y].arrivals)
    + (if t.partial == [] then [] else [t.partial])
  }

  predicate OnlyPushes(ops: seq<Op>) {
    forall k :: 0 <= k < |ops| ==> ops[k].Push? || ops[k].Rebase?
  }

  // ---------------------------------------------------------------------------
  // One operation
  // ---------------------------------------------------------------------------

  lemma BreaksIsCannotJoin(w: State, group: seq<Arrival>, a: Arrival)
    requires group != [] && w.cur == FrameOf(0, group)
    ensures Breaks(w, a.packet.header, a.t0) <==> CannotJoin(group, a, Window(w.policy))
  {
  }

  /** The frame counter changed for a packet exactly when it differs from the last one in the open frame. */
  lemma ChangedInFrame(t: Trace, op: Op)
    requires Invariant(t) && t.partial != [] && ArrivalOf(t.state, op).Some?
    ensures var a := ArrivalOf(t.state, op).value;
            a.changed <==> a.packet.header.frameCnt != t.partial[|t.partial| - 1].packet.header.frameCnt
  {
    hide PartialMatches, Counted, PieceMatches, Drop, Mapped, Watched;
    assert t.accepted[|t.accepted| - 1] == t.partial[|t.partial| - 1];
  }

  lemma StepCuts(t: Trace, op: Op)
    requires Invariant(t) && t.state.policy.mode == FrameCounter && (op.Push? || op.Rebase?)
    requires !Applied(t.state, op).0.fallback
    ensures var a, out := ArrivalOf(t.state, op), Applied(t.state, op).1;
            out.Some? <==> && a.Some? && t.partial != []
                           && CutBefore(t.partial, a.value, Window(t.state.policy))
  {
    hide Drop, Mapped, PointsOf, LatestNs, Counted, PieceMatches, Coherent, GroupPoints, GroupEndNs, GroupDrops,
      CannotJoin, Breaks, Earliest;
    StepIsUntimed(t.state, op);
    var a := ArrivalOf(t.state, op);
    if a.Some? {
      var h := a.value.packet.header;
      var w := Watched(Registered(t.state, h, op.recvNs), a.value.changed, a.value.t0);
      if t.partial != [] {
        ChangedInFrame(t, op);
        CoherentHasPoints(t.partial);
        BreaksIsCannotJoin(w, t.partial, a.value);
      }
    }
  }

  lemma JoinsGroup(groups: seq<seq<Arrival>>, a: Arrival, skip: nat, window: nat)
    requires groups != [] && CutThere(groups, skip, window)
    requires !CutBefore(groups[|groups| - 1], a, window)
    ensures var n := |groups| - 1; CutThere(groups[..n] + [groups[n] + [a]], skip, window)
  {
    hide CutBefore;
    var n := |groups| - 1;
    var longer := groups[..n] + [groups[n] + [a]];
    forall y | 0 < y < |longer| ensures CutBefore(longer[y - 1], longer[y][0], window) {
      assert longer[y - 1] == groups[y - 1] && longer[y][0] == groups[y][0];
    }
    forall y, x | 0 <= y < |longer| && 0 < x < |longer[y]| && (y == 0 ==> skip <= x)
      ensures !CutBefore(longer[y][..x], longer[y][x], window)
    {
      if y < n || x < |groups[n]| {
        assert longer[y][..x] == groups[y][..x] && longer[y][x] == groups[y][x];
      } else {
        assert longer[y][..x] == groups[n];
      }
    }
  }

  lemma StartsGroup(groups: seq<seq<Arrival>>, a: Arrival, skip: nat, window: nat)
    requires CutThere(groups, skip, window)
    requires groups != [] ==> CutBefore(groups[|groups| - 1], a, window)
    ensures CutThere(groups + [[a]], skip, window)
  {
    hide CutBefore;
  }

  // ---------------------------------------------------------------------------
  // Runs
  // ---------------------------------------------------------------------------

  /** The groups from `first` on after a push or a rebase. */
  lemma StepGroups(t: Trace, op: Op, first: nat, skip: nat)
    requires Invariant(t) && t.state.policy.mode == FrameCounter && (op.Push? || op.Rebase?)
    requires !Applied(t.state, op).0.fallback
    requires first <= |t.pieces| && (first < |t.pieces| ==> t.partial != [])
    requires CutThere(Groups(t, first), skip, Window(t.state.policy))
    ensures var next := Stepped(t, op);
            && first <= |next.pieces| && (first < |next.pieces| ==> next.partial != [])
            && CutThere(Groups(next, first), skip, Window(t.state.policy))
  {
    hide Invariant, CutThere, CutBefore, ArrivalOf, Applied;
    StepCuts(t, op);
    var a, next, groups := ArrivalOf(t.state, op), Stepped(t, op), Groups(t, first);
    if a.None? {
      assert next.partial == t.partial && next.pieces == t.pieces;
      assert Groups(next, first) == groups;
    } else if t.partial == [] {
      StartsGroup(groups, a.value, skip, Window(t.state.policy));
      assert next.partial == [a.value] && next.pieces == t.pieces;
      assert Groups(next, first) == groups + [[a.value]];
    } else if CutBefore(t.partial, a.value, Window(t.state.policy)) {
      StartsGroup(groups, a.value, skip, Window(t.state.policy));
      assert next.partial == [a.value] && next.pieces[..|t.pieces|] == t.pieces;
      assert Groups(next, first) == groups + [[a.value]];
    } else {
      JoinsGroup(groups, a.value, skip, Window(t.state.policy));
      assert next.partial == t.partial + [a.value] && next.pieces == t.pieces;
      assert Groups(next, first) == groups[..|groups| - 1] + [next.partial];
    }
  }

  /**
    Every run: while one frame-counter policy has not fallen back, and no frame is flushed or discarded,
    the accepted packets are cut exactly where the frame counter changes or the frame cannot hold the
    next packet. What was open at the start begins the first group.
  */
  lemma {:induction false} CutsWhereTheCounterChanges(
    policy: FramePolicy, timestamps: TimestampPolicy, ops: seq<Op>, i: nat, j: nat)
    requires CounterEpoch(policy, timestamps, ops, i, j) && OnlyPushes(ops[i..j])
    ensures var t0, t := Traced(policy, timestamps, ops[..i]), Traced(policy, timestamps, ops[..j]);
            && |t0.pieces| <= |t.pieces| && (|t0.pieces| < |t.pieces| ==> t.partial != [])
            && CutThere(Groups(t, |t0.pieces|), |t0.partial|, Window(t0.state.policy))
    decreases j
  {
    hide Traced, Invariant, Applied, ArrivalOf, CutBefore, Stepped;
    var t0 := Traced(policy, timestamps, ops[..i]);
    if i < j {
      var before, op := Traced(policy, timestamps, ops[..j - 1]), ops[j - 1];
      OneMoreOp(policy, timestamps, ops, j - 1);
      assert ops[i..j][j - 1 - i] == op && ops[i..j - 1] == ops[i..j][..j - 1 - i];
      EpochPolicy(policy, timestamps, ops, i, j - 1);
      NotYetFallenBack(before, op);
      CutsWhereTheCounterChanges(policy, timestamps, ops, i, j - 1);
      RunKeeps(policy, timestamps, ops[..j - 1]);
      StepGroups(before, op, |t0.pieces|, |t0.partial|);
    }
  }

  lemma NotYetFallenBack(t: Trace, op: Op)
    requires t.state.policy.mode == FrameCounter && !op.SetPolicy? && !Stepped(t, op).state.fallback
    ensures !t.state.fallback && !Applied(t.state, op).0.fallback
  {
    hide ArrivalOf, Applied;
    StepIsUntimed(t.state, op);
  }

  // ---------------------------------------------------------------------------
  // Consecutive frames
  // ---------------------------------------------------------------------------

  /** A frame after which the next one could not have joined, whatever the frame counters. */
  predicate Broken(f: Frame, next: Frame, spanNs: nat, window: nat) {
    || next.sourceType != f.sourceType
    || next.timeType != f.timeType
    || next.baseTimeNs + window <= f.baseTimeNs
    || next.baseTimeNs + spanNs > f.baseTimeNs + 0xFFFF_FFFF
  }

  /** In a group of one counter value, the last packet has the value of the frame. */
  lemma {:induction false} OneValue(groups: seq<seq<Arrival>>, skip: nat, window: nat, y: nat, x: nat)
    requires CutThere(groups, skip, window) && y < |groups| && x < |groups[y]|
    requires y == 0 ==> skip <= 1
    ensures groups[y][x].packet.header.frameCnt == groups[y][0].packet.header.frameCnt
    decreases x
  {
    hide CannotJoin;
    if x > 0 {
      OneValue(groups, skip, window, y, x - 1);
      assert !CutBefore(groups[y][..x], groups[y][x], window);
    }
  }

  /** Pieces of such a run, from the first on, differ in their counter unless the frame was broken. */
  lemma NextDiffers(groups: seq<seq<Arrival>>, skip: nat, window: nat, y: nat)
    requires CutThere(groups, skip, window) && y + 1 < |groups|
    requires y == 0 ==> skip <= 1
    ensures var f, next := groups[y][0].packet.header, groups[y + 1][0].packet.header;
            next.frameCnt != f.frameCnt || CannotJoin(groups[y], groups[y + 1][0], window)
  {
    hide CannotJoin;
    OneValue(groups, skip, window, y, |groups[y]| - 1);
    assert CutBefore(groups[(y + 1) - 1], groups[y + 1][0], window);
  }

  /** Pushes only add delivered pieces. */
  lemma {:induction false} PushesOnlyDeliver(
    policy: FramePolicy, timestamps: TimestampPolicy, ops: seq<Op>, i: nat, j: nat)
    requires i <= j <= |ops| && OnlyPushes(ops[i..j])
    ensures var before, t := Traced(policy, timestamps, ops[..i]).pieces, Traced(policy, timestamps, ops[..j]);
            before <= t.pieces && forall k :: |before| <= k < |t.pieces| ==> t.pieces[k].Delivered?
    decreases j
  {
    hide Traced, Applied, ArrivalOf;
    if i < j {
      OneMoreOp(policy, timestamps, ops, j - 1);
      assert ops[i..j][j - 1 - i] == ops[j - 1] && ops[i..j - 1] == ops[i..j][..j - 1 - i];
      PushesOnlyDeliver(policy, timestamps, ops, i, j - 1);
    }
  }

  /** From piece `n` on every piece is a frame. */
  lemma {:induction false} FramesOfTail(pieces: seq<Piece>, n: nat)
    requires n <= |pieces| && forall k :: n <= k < |pieces| ==> pieces[k].Delivered?
    ensures DeliveredCount(pieces) == DeliveredCount(pieces[..n]) + |pieces| - n
    decreases |pieces|
  {
    if n < |pieces| {
      var before := pieces[..|pieces| - 1];
      FramesOfTail(before, n);
      assert before[..n] == pieces[..n];
    } else {
      assert pieces[..n] == pieces;
    }
  }

  lemma {:induction false} FrameOfPiece(pieces: seq<Piece>, p: nat)
    requires p < |pieces| && pieces[p].Delivered?
    ensures var k := DeliveredCount(pieces[..p]);
            k < DeliveredCount(pieces) && DeliveredFrames(pieces)[k] == pieces[p].frame
    decreases |pieces|
  {
    var before := pieces[..|pieces| - 1];
    if p < |before| {
      FrameOfPiece(before, p);
      assert before[..p] == pieces[..p];
    }
  }

  /** The frames delivered between two operations of a run are the pieces cut between them. */
  lemma FramesOfPushes(policy: FramePolicy, timestamps: TimestampPolicy, ops: seq<Op>, i: nat, j: nat, k: nat)
    requires i <= j <= |ops| && OnlyPushes(ops[i..j])
    requires |Outputs(policy, timestamps, ops[..i]).1| <= k < |Outputs(policy, timestamps, ops[..j]).1|
    ensures var before, t := Traced(policy, timestamps, ops[..i]), Traced(policy, timestamps, ops[..j]);
            var p := |before.pieces| + k - |Outputs(policy, timestamps, ops[..i]).1|;
            p < |t.pieces| && FrameIsExact(Outputs(policy, timestamps, ops[..j]).1[k], k, t.pieces[p].arrivals)
  {
    hide Traced, Outputs, FrameOf, Coherent, Counted, Remembers, PartialMatches, DeliveredFrames, DeliveredCount,
      Flattened;
    var before, t := Traced(policy, timestamps, ops[..i]), Traced(policy, timestamps, ops[..j]);
    OutputsAreDelivered(policy, timestamps, ops[..i]);
    OutputsAreDelivered(policy, timestamps, ops[..j]);
    PushesOnlyDeliver(policy, timestamps, ops, i, j);
    var n := |before.pieces|;
    assert t.pieces[..n] == before.pieces;
    FramesOfTail(t.pieces, n);
    var p := n + k - DeliveredCount(before.pieces);
    assert t.pieces[..p][..n] == before.pieces;
    FramesOfTail(t.pieces[..p], n);
    FrameOfPiece(t.pieces, p);
    RunKeeps(policy, timestamps, ops[..j]);
    assert PieceMatches(t.pieces, p);
  }

  /**
    Two consecutive frames delivered by pushes, before the fallback, have different frame counters
    unless the first packet of the second frame could not have joined the first. A frame that was open
    at the start may hold packets of before and is left out.
  */
  lemma ConsecutiveCountersDiffer(
    policy: FramePolicy, timestamps: TimestampPolicy, ops: seq<Op>, i: nat, j: nat, k: nat)
    returns (first: Arrival)
    requires CounterEpoch(policy, timestamps, ops, i, j) && OnlyPushes(ops[i..j])
    requires |Outputs(policy, timestamps, ops[..i]).1| <= k && k + 1 < |Outputs(policy, timestamps, ops[..j]).1|
    requires k == |Outputs(policy, timestamps, ops[..i]).1| ==> Traced(policy, timestamps, ops[..i]).partial == []
    ensures var frames := Outputs(policy, timestamps, ops[..j]).1;
            var f, next, window := frames[k], frames[k + 1], Window(Traced(policy, timestamps, ops[..i]).state.policy);
            && first.t0 == next.baseTimeNs && first.packet.header.frameCnt == next.frameCnt
            && (next.frameCnt != f.frameCnt || Broken(f, next, SpanNs(first.packet.header), window))
  {
    hide Traced, Outputs, CutThere;
    EpochBounds(policy, timestamps, ops, i, j);
    FramesOfPushes(policy, timestamps, ops, i, j, k);
    FramesOfPushes(policy, timestamps, ops, i, j, k + 1);
    CutsWhereTheCounterChanges(policy, timestamps, ops, i, j);
    var before, t := Traced(policy, timestamps, ops[..i]), Traced(policy, timestamps, ops[..j]);
    var y := k - |Outputs(policy, timestamps, ops[..i]).1|;
    var groups := Groups(t, |before.pieces|);
    assert groups[y] == t.pieces[|before.pieces| + y].arrivals;
    assert groups[y + 1] == t.pieces[|before.pieces| + y + 1].arrivals;
    NextDiffers(groups, |before.partial|, Window(before.state.policy), y);
    first := groups[y + 1][0];
  }
}
