/**
  Whole runs of the frame assembler. A run is any sequence of push, flush, discard, set_policy
  and rebase on a fresh assembler. Beside the state it carries the packets accepted so far, cut
  into the pieces that were delivered as frames or discarded, and the packets of the open frame.
*/
module AssemblerRuns {
  import opened Bytes
  import opened Division
  import opened FrameAssembler
  import opened Packets
  import opened TimeMapper
  import opened Wrappers

  datatype Op =
    | Push(packet: Packet, recvNs: U64)
    | Flush
    | Discard
    | SetPolicy(policy: FramePolicy)
    | Rebase

  function Applied(s: State, op: Op): (r: (State, Option<Frame>)) {
    match op
    case Push(p, recvNs) => Pushed(s, p, recvNs)
    case Flush => Flushed(s)
    case Discard => (DiscardedPartial(s), None)
    case SetPolicy(policy) => (WithPolicy(s, policy), None)
    case Rebase => (Rebased(s), None)
  }

  /**
    An accepted packet: its mapped time, the drops it reported, whether its frame counter differs
    from the previous packet's, and whether the time window decided about it.
  */
  datatype Arrival = Arrival(packet: Packet, t0: nat, dropped: nat, changed: bool, timed: bool)

  /** The packet an operation adds to the accepted ones: point data that is not late. */
  function ArrivalOf(s: State, op: Op): (a: Option<Arrival>) {
    if op.Push? && !Ignored(op.packet.header) && !Late(s, op.packet.header) then
      var h := op.packet.header;
      var t0 := Mapped(s.mapper, h, op.recvNs).1;
      var changed := FrameChanged(s, h);
      Some(Arrival(op.packet, t0, Drop(s, h).dropped, changed,
                   TimeWindowActive(Watched(Registered(s, h, op.recvNs), changed, t0))))
    else None
  }

  datatype Piece =
    | Delivered(arrivals: seq<Arrival>, frame: Frame)
    | Discarded(arrivals: seq<Arrival>)

  datatype Trace = Trace(state: State, accepted: seq<Arrival>, pieces: seq<Piece>, partial: seq<Arrival>)

  function Stepped(t: Trace, op: Op): (t': Trace) {
    var (state, out) := Applied(t.state, op);
    var a := ArrivalOf(t.state, op);
    var joined := if a.Some? then [a.value] else [];
    Trace(
      state,
      t.accepted + joined,
      t.pieces + (if out.Some? then [Delivered(t.partial, out.value)]
                  else if op.Discard? && t.partial != [] then [Discarded(t.partial)]
                  else []),
      (if out.Some? || op.Discard? then [] else t.partial) + joined)
  }

  function Traced(policy: FramePolicy, timestamps: TimestampPolicy, ops: seq<Op>): (t: Trace) {
    if ops == [] then Trace(Fresh(policy, timestamps), [], [], [])
    else Stepped(Traced(policy, timestamps, ops[..|ops| - 1]), ops[|ops| - 1])
  }

  // ---------------------------------------------------------------------------
  // What a group of packets should be as a frame
  // ---------------------------------------------------------------------------

  function BaseNs(group: seq<Arrival>): nat
    requires group != []
  {
    group[0].t0
  }

  /** The points of one packet, each at its exact offset from the base. */
  function ExactPoints(a: Arrival, baseNs: nat): (ps: seq<Point>)
    ensures |ps| == a.packet.header.dotNum
  {
    var h := a.packet.header;
    seq(h.dotNum, i requires 0 <= i < h.dotNum =>
      Point(h.dataType, RawSample(a.packet, i), i % 4, OffsetNs(a.t0 + SampleDelta(h, i), baseNs)))
  }

  function GroupPoints(group: seq<Arrival>, baseNs: nat): (ps: seq<Point>) {
    if group == [] then []
    else GroupPoints(group[..|group| - 1], baseNs) + ExactPoints(group[|group| - 1], baseNs)
  }

  /** The time of the last sample of the packet. */
  function LastSampleNs(a: Arrival): nat {
    if a.packet.header.dotNum == 0 then a.t0 else a.t0 + SampleDelta(a.packet.header, a.packet.header.dotNum - 1)
  }

  function GroupEndNs(group: seq<Arrival>, baseNs: nat): (e: nat)
    ensures e >= baseNs
  {
    if group == [] then baseNs
    else
      var before, last := GroupEndNs(group[..|group| - 1], baseNs), LastSampleNs(group[|group| - 1]);
      if last > before then last else before
  }

  function GroupDrops(group: seq<Arrival>): (n: nat) {
    if group == [] then 0 else GroupDrops(group[..|group| - 1]) + group[|group| - 1].dropped
  }

  /** The frame that `group` makes from base time `baseNs` and first header `h`. */
  function FrameFrom(index: nat, baseNs: nat, h: PacketHeader, group: seq<Arrival>): (f: Frame) {
    Frame(
      index, baseNs, GroupEndNs(group, baseNs), GroupPoints(group, baseNs),
      |group|, GroupDrops(group), h.frameCnt, h.dataType, h.timeType)
  }

  function FrameOf(index: nat, group: seq<Arrival>): (f: Frame)
    requires group != []
  {
    FrameFrom(index, BaseNs(group), group[0].packet.header, group)
  }

  /** One point format and one time base, points present, and offsets that fit their field. */
  predicate Coherent(group: seq<Arrival>) {
    && group != []
    && (forall k :: 0 <= k < |group| ==>
          && group[k].packet.header.dotNum > 0
          && group[k].packet.header.dataType != Imu
          && group[k].packet.header.dataType == group[0].packet.header.dataType
          && group[k].packet.header.timeType == group[0].packet.header.timeType
          && group[k].t0 + SpanNs(group[k].packet.header) <= BaseNs(group) + OFFSET_MAX)
    && (forall k :: 0 < k < |group| && !group[k].timed ==>
          group[k].packet.header.frameCnt == group[k - 1].packet.header.frameCnt)
  }

  // ---------------------------------------------------------------------------
  // The points of a packet, computed and exact
  // ---------------------------------------------------------------------------

  lemma {:induction false} PointsAreExact(a: Arrival, n: nat, baseNs: nat)
    requires n <= a.packet.header.dotNum
    requires a.t0 + SpanNs(a.packet.header) <= baseNs + OFFSET_MAX
    ensures PointsOf(a.packet, n, a.t0, baseNs) == ExactPoints(a, baseNs)[..n]
  {
    hide SampleDelta, RawSample;
    if n != 0 {
      PointsAreExact(a, n - 1, baseNs);
      SampleWithinSpan(a.packet.header, n - 1);
      assert ExactPoints(a, baseNs)[..n] == ExactPoints(a, baseNs)[..n - 1] + [ExactPoints(a, baseNs)[n - 1]];
    }
  }

  lemma SamplesInOrder(h: PacketHeader, i: nat, j: nat)
    requires i <= j
    ensures SampleDelta(h, i) <= SampleDelta(h, j)
  {
    if h.dotNum > 1 && i != 0 {
      assert SpanNs(h) * j == SpanNs(h) * i + SpanNs(h) * (j - i);
      DivideMonotone(SpanNs(h) * i, SpanNs(h) * j, h.dotNum - 1);
    }
  }

  lemma {:induction false} LatestIsLastSample(p: Packet, n: nat, t0: nat, endNs: nat)
    requires 0 < n <= p.header.dotNum
    ensures var last := t0 + SampleDelta(p.header, n - 1);
            LatestNs(p, n, t0, endNs) == if last > endNs then last else endNs
  {
    if n > 1 {
      LatestIsLastSample(p, n - 1, t0, endNs);
      SamplesInOrder(p.header, n - 2, n - 1);
    } else {
      assert LatestNs(p, 0, t0, endNs) == endNs;
    }
  }

  // ---------------------------------------------------------------------------
  // A packet starts a frame or joins it
  // ---------------------------------------------------------------------------

  lemma ShortSpan(a: Arrival)
    requires !Ignored(a.packet.header)
    ensures Coherent([a])
  {
  }

  lemma FrameGrows(s: State, baseNs: nat, h0: PacketHeader, group: seq<Arrival>, a: Arrival)
    requires s.cur == FrameFrom(0, baseNs, h0, group)
    requires !Ignored(a.packet.header)
    requires a.t0 + SpanNs(a.packet.header) <= baseNs + OFFSET_MAX
    ensures Appended(s, a.packet, a.t0, a.dropped).cur == FrameFrom(0, baseNs, h0, group + [a])
  {
    var n := a.packet.header.dotNum;
    var longer := group + [a];
    assert longer[|group|] == a && longer[..|longer| - 1] == group;
    PointsAreExact(a, n, baseNs);
    assert ExactPoints(a, baseNs)[..n] == ExactPoints(a, baseNs);
    LatestIsLastSample(a.packet, n, a.t0, s.cur.endTimeNs);
  }

  lemma EmptyGroup(baseNs: nat, h: PacketHeader)
    ensures FrameFrom(0, baseNs, h, []) == Frame(0, baseNs, baseNs, [], 0, 0, h.frameCnt, h.dataType, h.timeType)
  {
  }

  lemma FrameStarts(s: State, a: Arrival)
    requires s.cur == FrameFrom(0, a.t0, a.packet.header, [])
    requires !Ignored(a.packet.header)
    ensures Appended(s, a.packet, a.t0, a.dropped).cur == FrameOf(0, [a])
  {
    FrameGrows(s, a.t0, a.packet.header, [], a);
    assert [] + [a] == [a];
  }

  /** What a packet that leaves the frame open has in common with it. */
  lemma GroupGrows(w: State, group: seq<Arrival>, a: Arrival)
    requires Coherent(group) && w.cur == FrameOf(0, group)
    requires !Ignored(a.packet.header)
    requires !Closes(w, a.packet.header, a.changed, a.t0)
    requires a.timed == TimeWindowActive(w)
    requires a.changed == (a.packet.header.frameCnt != group[|group| - 1].packet.header.frameCnt)
    ensures Coherent(group + [a])
  {
    assert ExactPoints(group[|group| - 1], BaseNs(group)) != [];
    assert w.cur.points != [];
    var longer := group + [a];
    forall k | 0 < k < |longer| && !longer[k].timed
      ensures longer[k].packet.header.frameCnt == longer[k - 1].packet.header.frameCnt
    {
      if k < |group| { assert longer[k] == group[k] && longer[k - 1] == group[k - 1]; }
    }
  }

  lemma CoherentHasPoints(group: seq<Arrival>)
    requires Coherent(group)
    ensures GroupPoints(group, BaseNs(group)) != []
  {
    assert |ExactPoints(group[|group| - 1], BaseNs(group))| > 0;
  }

  // ---------------------------------------------------------------------------
  // The invariant of every run
  // ---------------------------------------------------------------------------

  function Flattened(pieces: seq<Piece>): (s: seq<Arrival>) {
    if pieces == [] then [] else Flattened(pieces[..|pieces| - 1]) + pieces[|pieces| - 1].arrivals
  }

  function DeliveredCount(pieces: seq<Piece>): (n: nat) {
    if pieces == [] then 0
    else DeliveredCount(pieces[..|pieces| - 1]) + (if pieces[|pieces| - 1].Delivered? then 1 else 0)
  }

  function DeliveredPoints(pieces: seq<Piece>): (n: nat) {
    if pieces == [] then 0
    else DeliveredPoints(pieces[..|pieces| - 1])
         + (if pieces[|pieces| - 1].Delivered? then |pieces[|pieces| - 1].frame.points| else 0)
  }

  /** The open frame is the frame of the packets since the last cut. */
  predicate PartialMatches(cur: Frame, partial: seq<Arrival>) {
    if partial == [] then cur.points == [] && cur.index == cur.packets == cur.droppedPackets == 0
    else Coherent(partial) && cur == FrameOf(0, partial)
  }

  predicate PieceMatches(pieces: seq<Piece>, k: nat)
    requires k < |pieces|
  {
    && Coherent(pieces[k].arrivals)
    && (pieces[k].Delivered? ==>
          pieces[k].frame == FrameOf(DeliveredCount(pieces[..k]) % 0x1_0000_0000, pieces[k].arrivals))
  }

  predicate Counted(t: Trace) {
    var c := t.state.counters;
    && c.packets == |t.accepted|
    && c.frames == DeliveredCount(t.pieces)
    && t.state.nextIndex == DeliveredCount(t.pieces) % 0x1_0000_0000
    && c.points == DeliveredPoints(t.pieces) + |t.state.cur.points|
    && c.droppedPackets == GroupDrops(t.accepted)
  }

  predicate Remembers(t: Trace) {
    && t.state.havePrev == (t.accepted != [])
    && (t.accepted != [] ==>
          var h := t.accepted[|t.accepted| - 1].packet.header;
          t.state.prevFrameCnt == h.frameCnt && t.state.prevDataType == h.dataType)
  }

  predicate Invariant(t: Trace) {
    && t.accepted == Flattened(t.pieces) + t.partial
    && PartialMatches(t.state.cur, t.partial)
    && (forall k :: 0 <= k < |t.pieces| ==> PieceMatches(t.pieces, k))
    && Counted(t)
    && Remembers(t)
  }

  lemma OnePieceMore(pieces: seq<Piece>, p: Piece)
    requires forall k :: 0 <= k < |pieces| ==> PieceMatches(pieces, k)
    requires Coherent(p.arrivals)
    requires p.Delivered? ==> p.frame == FrameOf(DeliveredCount(pieces) % 0x1_0000_0000, p.arrivals)
    ensures forall k :: 0 <= k < |pieces + [p]| ==> PieceMatches(pieces + [p], k)
    ensures Flattened(pieces + [p]) == Flattened(pieces) + p.arrivals
    ensures DeliveredCount(pieces + [p]) == DeliveredCount(pieces) + (if p.Delivered? then 1 else 0)
    ensures DeliveredPoints(pieces + [p]) == DeliveredPoints(pieces) + (if p.Delivered? then |p.frame.points| else 0)
  {
    var longer := pieces + [p];
    assert longer[..|longer| - 1] == pieces;
    forall k | 0 <= k < |longer| ensures PieceMatches(longer, k) {
      assert longer[..k] == pieces[..k];
      if k < |pieces| { assert PieceMatches(pieces, k); } else { assert pieces[..k] == pieces; }
    }
  }

  // ---------------------------------------------------------------------------
  // Every operation keeps the invariant
  // ---------------------------------------------------------------------------

  lemma DropsOfOneMore(group: seq<Arrival>, a: Arrival)
    ensures GroupDrops(group + [a]) == GroupDrops(group) + a.dropped
  {
    assert (group + [a])[..|group|] == group;
  }

  /** The fields an accepted packet always leaves behind. */
  predicate Advanced(t: Trace, next: Trace, a: Arrival) {
    var c, c', h := t.state.counters, next.state.counters, a.packet.header;
    && next.accepted == t.accepted + [a]
    && c'.packets == c.packets + 1
    && c'.points == c.points + h.dotNum
    && c'.droppedPackets == c.droppedPackets + a.dropped
    && next.state.havePrev && next.state.prevFrameCnt == h.frameCnt && next.state.prevDataType == h.dataType
  }

  lemma NextIndex(n: nat)
    ensures (n % 0x1_0000_0000 + 1) % 0x1_0000_0000 == (n + 1) % 0x1_0000_0000
  {
  }

  lemma CutKeeps(t: Trace, next: Trace, frame: Frame, a: Arrival)
    requires Invariant(t) && t.partial != [] && Advanced(t, next, a)
    requires frame == t.state.cur.(index := t.state.nextIndex)
    requires next.pieces == t.pieces + [Delivered(t.partial, frame)]
    requires next.partial == [a] && Coherent([a]) && next.state.cur == FrameOf(0, [a])
    requires next.state.counters.frames == t.state.counters.frames + 1
    requires next.state.nextIndex == (t.state.nextIndex + 1) % 0x1_0000_0000
    ensures Invariant(next)
  {
    OnePieceMore(t.pieces, Delivered(t.partial, frame));
    DropsOfOneMore(t.accepted, a);
    OnePacketPoints(a);
    NextIndex(DeliveredCount(t.pieces));
    assert next.accepted == Flattened(next.pieces) + next.partial;
    assert Counted(next);
  }

  lemma OnePacketPoints(a: Arrival)
    ensures |GroupPoints([a], a.t0)| == a.packet.header.dotNum
  {
    assert [a][..0] == [];
  }

  lemma JoinKeeps(t: Trace, next: Trace, a: Arrival)
    requires Invariant(t) && Advanced(t, next, a)
    requires next.pieces == t.pieces && next.partial == t.partial + [a]
    requires Coherent(next.partial) && next.state.cur == FrameOf(0, next.partial)
    requires next.state.counters.frames == t.state.counters.frames
    requires next.state.nextIndex == t.state.nextIndex
    ensures Invariant(next)
  {
    hide Coherent, GroupDrops, Flattened, DeliveredCount, DeliveredPoints, PieceMatches, SampleDelta, RawSample;
    DropsOfOneMore(t.accepted, a);
    assert next.partial[..|next.partial| - 1] == t.partial;
    var base := BaseNs(next.partial);
    assert GroupPoints(next.partial, base) == GroupPoints(t.partial, base) + ExactPoints(a, base);
    assert t.partial != [] ==> BaseNs(t.partial) == base;
  }

  /** What an accepted packet does to the counters, whichever way it joins a frame. */
  lemma AcceptedFields(s: State, p: Packet, t0: nat, changed: bool, dropped: nat)
    ensures var s', c := Accepted(s, p, t0, changed, dropped).0, s.counters;
            && s'.counters.packets == c.packets + 1
            && s'.counters.points == c.points + p.header.dotNum
            && s'.counters.droppedPackets == c.droppedPackets
            && s'.havePrev && s'.prevFrameCnt == p.header.frameCnt && s'.prevDataType == p.header.dataType
  {
  }

  /** How an accepted packet changes the trace, in terms of the state it is decided in. */
  lemma AcceptedStep(t: Trace, op: Op, a: Arrival, w: State)
    requires ArrivalOf(t.state, op) == Some(a)
    requires w == Watched(Registered(t.state, a.packet.header, op.recvNs), a.changed, a.t0)
    ensures w.cur == t.state.cur && w.nextIndex == t.state.nextIndex
    ensures w.counters.frames == t.state.counters.frames
    ensures a.timed == TimeWindowActive(w)
    ensures Stepped(t, op).state == Accepted(Registered(t.state, a.packet.header, op.recvNs), a.packet, a.t0,
        a.changed, a.dropped).0
    ensures Advanced(t, Stepped(t, op), a)
  {
    AcceptedFields(Registered(t.state, a.packet.header, op.recvNs), a.packet, a.t0, a.changed, a.dropped);
  }

  lemma PushClosesKeeps(t: Trace, op: Op, a: Arrival, w: State)
    requires Invariant(t)
    requires ArrivalOf(t.state, op) == Some(a)
    requires w == Watched(Registered(t.state, a.packet.header, op.recvNs), a.changed, a.t0)
    requires Closes(w, a.packet.header, a.changed, a.t0)
    ensures Invariant(Stepped(t, op))
  {
    hide Drop, Late, Mapped, PointsOf, LatestNs, GroupPoints, GroupEndNs, GroupDrops, ExactPoints, Flattened,
      DeliveredCount, DeliveredPoints, PieceMatches, Counted;
    AcceptedStep(t, op, a, w);
    var (taken, frame) := Taken(w);
    var h, next := a.packet.header, Stepped(t, op);
    var o := Opened(taken, h, a.t0, StaysOnGrid(w, h, a.t0));
    assert next.state == Appended(o, a.packet, a.t0, a.dropped);
    EmptyGroup(a.t0, h);
    FrameStarts(o, a);
    ShortSpan(a);
    CutKeeps(t, next, frame, a);
  }

  lemma PushStartsKeeps(t: Trace, op: Op, a: Arrival, w: State)
    requires Invariant(t)
    requires ArrivalOf(t.state, op) == Some(a)
    requires w == Watched(Registered(t.state, a.packet.header, op.recvNs), a.changed, a.t0)
    requires t.partial == []
    ensures Invariant(Stepped(t, op))
  {
    hide Drop, Late, Mapped, PointsOf, LatestNs, GroupPoints, GroupEndNs, GroupDrops, ExactPoints, Flattened,
      DeliveredCount, DeliveredPoints, PieceMatches, Counted;
    AcceptedStep(t, op, a, w);
    var h, next := a.packet.header, Stepped(t, op);
    var o := Opened(w, h, a.t0, false);
    assert next.state == Appended(o, a.packet, a.t0, a.dropped);
    EmptyGroup(a.t0, h);
    FrameStarts(o, a);
    ShortSpan(a);
    assert t.partial + [a] == [a];
    JoinKeeps(t, next, a);
  }

  lemma PushJoinsKeeps(t: Trace, op: Op, a: Arrival, w: State)
    requires Invariant(t)
    requires ArrivalOf(t.state, op) == Some(a)
    requires w == Watched(Registered(t.state, a.packet.header, op.recvNs), a.changed, a.t0)
    requires t.partial != [] && !Closes(w, a.packet.header, a.changed, a.t0)
    ensures Invariant(Stepped(t, op))
  {
    hide Drop, Late, Mapped, PointsOf, LatestNs, GroupPoints, GroupEndNs, GroupDrops, ExactPoints, Flattened,
      DeliveredCount, DeliveredPoints, PieceMatches, Counted;
    AcceptedStep(t, op, a, w);
    var h, next := a.packet.header, Stepped(t, op);
    CoherentHasPoints(t.partial);
    assert t.accepted[|t.accepted| - 1] == t.partial[|t.partial| - 1];
    GroupGrows(w, t.partial, a);
    assert next.state == Appended(w, a.packet, a.t0, a.dropped);
    assert (t.partial + [a])[|t.partial|] == a;
    FrameGrows(w, BaseNs(t.partial), t.partial[0].packet.header, t.partial, a);
    JoinKeeps(t, next, a);
  }

  lemma PushKeeps(t: Trace, op: Op)
    requires Invariant(t) && op.Push?
    ensures Invariant(Stepped(t, op))
  {
    var a := ArrivalOf(t.state, op);
    if a.Some? {
      var w := Watched(Registered(t.state, a.value.packet.header, op.recvNs), a.value.changed, a.value.t0);
      if t.partial == [] {
        PushStartsKeeps(t, op, a.value, w);
      } else if Closes(w, a.value.packet.header, a.value.changed, a.value.t0) {
        PushClosesKeeps(t, op, a.value, w);
      } else {
        PushJoinsKeeps(t, op, a.value, w);
      }
    } else {
      UnacceptedKeeps(t, op);
    }
  }

  /** An ignored or late packet reports no drops and changes no frame. */
  lemma UnacceptedKeeps(t: Trace, op: Op)
    requires Invariant(t) && op.Push? && ArrivalOf(t.state, op) == None
    ensures Invariant(Stepped(t, op))
  {
    var next := Stepped(t, op);
    assert next.accepted == t.accepted && next.pieces == t.pieces && next.partial == t.partial;
  }

  lemma FlushKeeps(t: Trace)
    requires Invariant(t)
    ensures Invariant(Stepped(t, Flush))
  {
    hide Coherent, GroupPoints, GroupEndNs, GroupDrops, Flattened, DeliveredCount, DeliveredPoints, PieceMatches,
        Pushed;
    var next := Stepped(t, Flush);
    assert next.accepted == t.accepted;
    if t.partial == [] {
      assert next.pieces == t.pieces && next.partial == [];
    } else {
      CoherentHasPoints(t.partial);
      var piece := Delivered(t.partial, Taken(t.state).1);
      OnePieceMore(t.pieces, piece);
      NextIndex(DeliveredCount(t.pieces));
      assert next.pieces == t.pieces + [piece] && next.partial == [];
      assert Counted(next);
    }
  }

  lemma DiscardKeeps(t: Trace)
    requires Invariant(t)
    ensures Invariant(Stepped(t, Discard))
  {
    hide Coherent, GroupPoints, GroupEndNs, GroupDrops, Flattened, DeliveredCount, DeliveredPoints, PieceMatches,
        Pushed;
    var next := Stepped(t, Discard);
    assert next.accepted == t.accepted;
    if t.partial == [] {
      assert next.pieces == t.pieces && next.partial == [];
    } else {
      OnePieceMore(t.pieces, Discarded(t.partial));
      assert next.pieces == t.pieces + [Discarded(t.partial)] && next.partial == [];
      assert Counted(next);
    }
  }

  lemma StepKeeps(t: Trace, op: Op)
    requires Invariant(t)
    ensures Invariant(Stepped(t, op))
  {
    hide Coherent, GroupPoints, GroupEndNs, GroupDrops, Flattened, DeliveredCount, DeliveredPoints, PieceMatches,
        Pushed, Flushed;
    match op
    case Push(_, _) => PushKeeps(t, op);
    case Flush => FlushKeeps(t);
    case Discard => DiscardKeeps(t);
    case _ =>
      var next := Stepped(t, op);
      assert next.accepted == t.accepted && next.pieces == t.pieces && next.partial == t.partial;
  }

  /** Every run keeps the invariant. */
  lemma {:induction false} RunKeeps(policy: FramePolicy, timestamps: TimestampPolicy, ops: seq<Op>)
    ensures Invariant(Traced(policy, timestamps, ops))
  {
    if ops != [] {
      RunKeeps(policy, timestamps, ops[..|ops| - 1]);
      StepKeeps(Traced(policy, timestamps, ops[..|ops| - 1]), ops[|ops| - 1]);
    }
  }
}
