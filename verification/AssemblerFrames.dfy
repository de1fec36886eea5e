/** What every run of the frame assembler delivers. */
module AssemblerFrames {
  import opened AssemblerRuns
  import opened Bytes
  import opened FrameAssembler
  import opened Packets
  import opened Seqs
  import opened TimeMapper

  /** The frames the operations returned, in order. */
  function Outputs(policy: FramePolicy, timestamps: TimestampPolicy, ops: seq<Op>): (r: (State, seq<Frame>)) {
    if ops == [] then (Fresh(policy, timestamps), [])
    else
      var (state, frames) := Outputs(policy, timestamps, ops[..|ops| - 1]);
      var (state', out) := Applied(state, ops[|ops| - 1]);
      (state', if out.Some? then frames + [out.value] else frames)
  }

  function DeliveredFrames(pieces: seq<Piece>): (fs: seq<Frame>)
    ensures |fs| == DeliveredCount(pieces)
  {
    if pieces == [] then []
    else
      var before, last := DeliveredFrames(pieces[..|pieces| - 1]), pieces[|pieces| - 1];
      if last.Delivered? then before + [last.frame] else before
  }

  lemma {:induction false} OutputsAreDelivered(policy: FramePolicy, timestamps: TimestampPolicy, ops: seq<Op>)
    ensures var t := Traced(policy, timestamps, ops);
            Outputs(policy, timestamps, ops) == (t.state, DeliveredFrames(t.pieces))
  {
    if ops != [] {
      OutputsAreDelivered(policy, timestamps, ops[..|ops| - 1]);
      var t := Traced(policy, timestamps, ops[..|ops| - 1]);
      var next := Stepped(t, ops[|ops| - 1]);
      if |next.pieces| > |t.pieces| {
        assert next.pieces[..|next.pieces| - 1] == t.pieces;
      } else {
        assert next.pieces == t.pieces;
      }
    }
  }

  /** A point without its offset, which depends on the frame it is in. */
  datatype Sample = Sample(source: DataType, raw: seq<Byte>, line: nat)

  function Samples(points: seq<Point>): (s: seq<Sample>)
    ensures |s| == |points|
  {
    seq(|points|, i requires 0 <= i < |points| => Sample(points[i].source, points[i].raw, points[i].line))
  }

  function FrameSamples(frames: seq<Frame>): (s: seq<Sample>) {
    if frames == [] then [] else FrameSamples(frames[..|frames| - 1]) + Samples(frames[|frames| - 1].points)
  }

  function SamplesOf(p: Packet): (s: seq<Sample>)
    ensures |s| == p.header.dotNum
  {
    seq(p.header.dotNum, i requires 0 <= i < p.header.dotNum => Sample(p.header.dataType, RawSample(p, i), i % 4))
  }

  lemma FrameSamplesOfOneMore(frames: seq<Frame>, f: Frame)
    ensures FrameSamples(frames + [f]) == FrameSamples(frames) + Samples(f.points)
  {
    assert (frames + [f])[..|frames|] == frames;
  }

  /** What the packets carry, sample by sample in arrival order. */
  function PacketSamples(arrivals: seq<Arrival>): (s: seq<Sample>) {
    if arrivals == [] then []
    else PacketSamples(arrivals[..|arrivals| - 1]) + SamplesOf(arrivals[|arrivals| - 1].packet)
  }

  /** The accepted packets without the discarded pieces. */
  function Kept(pieces: seq<Piece>): (s: seq<Arrival>) {
    if pieces == [] then []
    else
      var before, last := Kept(pieces[..|pieces| - 1]), pieces[|pieces| - 1];
      if last.Delivered? then before + last.arrivals else before
  }

  lemma {:induction false} GroupSamples(group: seq<Arrival>, baseNs: nat)
    ensures Samples(GroupPoints(group, baseNs)) == PacketSamples(group)
  {
    if group != [] {
      GroupSamples(group[..|group| - 1], baseNs);
      var a := group[|group| - 1];
      assert Samples(ExactPoints(a, baseNs)) == SamplesOf(a.packet);
      assert Samples(GroupPoints(group, baseNs)) ==
        Samples(GroupPoints(group[..|group| - 1], baseNs)) + Samples(ExactPoints(a, baseNs));
    }
  }

  lemma {:induction false} PacketSamplesSplit(a: seq<Arrival>, b: seq<Arrival>)
    ensures PacketSamples(a + b) == PacketSamples(a) + PacketSamples(b)
  {
    if b == [] {
      assert a + b == a;
    } else {
      var init, last := b[..|b| - 1], SamplesOf(b[|b| - 1].packet);
      PacketSamplesSplit(a, init);
      assert (a + b)[..|a + b| - 1] == a + init;
      Assoc(PacketSamples(a), PacketSamples(init), last);
    }
  }

  lemma {:induction false} DeliveredSamples(pieces: seq<Piece>)
    requires forall k :: 0 <= k < |pieces| ==> PieceMatches(pieces, k)
    ensures FrameSamples(DeliveredFrames(pieces)) == PacketSamples(Kept(pieces))
  {
    if pieces != [] {
      var before, last := pieces[..|pieces| - 1], pieces[|pieces| - 1];
      forall k | 0 <= k < |before| ensures PieceMatches(before, k) {
        assert PieceMatches(pieces, k) && before[..k] == pieces[..k];
      }
      DeliveredSamples(before);
      if last.Delivered? {
        assert PieceMatches(pieces, |before|);
        GroupSamples(last.arrivals, BaseNs(last.arrivals));
        PacketSamplesSplit(Kept(before), last.arrivals);
        FrameSamplesOfOneMore(DeliveredFrames(before), last.frame);
      }
    }
  }

  /**
    Point conservation in order, over every run. Each accepted packet lies in exactly one piece
    or in the open frame; what was delivered, followed by the open frame, is sample for sample
    what the packets that were not discarded carried.
  */
  lemma PointsAreConserved(policy: FramePolicy, timestamps: TimestampPolicy, ops: seq<Op>)
    ensures var t := Traced(policy, timestamps, ops);
            var frames := Outputs(policy, timestamps, ops).1;
            && t.accepted == Flattened(t.pieces) + t.partial
            && FrameSamples(frames) + Samples(t.state.cur.points) == PacketSamples(Kept(t.pieces) + t.partial)
            && t.state.counters.points == |FrameSamples(frames)| + |t.state.cur.points|
            && t.state.counters.frames == |frames|
  {
    RunKeeps(policy, timestamps, ops);
    OutputsAreDelivered(policy, timestamps, ops);
    var t := Traced(policy, timestamps, ops);
    DeliveredSamples(t.pieces);
    PacketSamplesSplit(Kept(t.pieces), t.partial);
    if t.partial != [] { GroupSamples(t.partial, BaseNs(t.partial)); }
    DeliveredLength(t.pieces);
  }

  lemma {:induction false} DeliveredLength(pieces: seq<Piece>)
    ensures |FrameSamples(DeliveredFrames(pieces))| == DeliveredPoints(pieces)
  {
    if pieces != [] {
      var before := pieces[..|pieces| - 1];
      DeliveredLength(before);
      if pieces[|pieces| - 1].Delivered? {
        FrameSamplesOfOneMore(DeliveredFrames(before), pieces[|pieces| - 1].frame);
      }
    }
  }

  // ---------------------------------------------------------------------------
  // Each delivered frame
  // ---------------------------------------------------------------------------

  /** The offsets within one packet: none past its last sample. */
  lemma PacketOffsets(a: Arrival, baseNs: nat)
    requires a.packet.header.dotNum > 0
    ensures var ps := ExactPoints(a, baseNs);
            && ps[|ps| - 1].offsetNs == OffsetNs(LastSampleNs(a), baseNs)
            && forall i :: 0 <= i < |ps| ==> ps[i].offsetNs <= OffsetNs(LastSampleNs(a), baseNs)
  {
    var n := a.packet.header.dotNum;
    forall i | 0 <= i < n ensures SampleDelta(a.packet.header, i) <= SampleDelta(a.packet.header, n - 1) {
      SamplesInOrder(a.packet.header, i, n - 1);
    }
  }

  lemma {:induction false} LargestOffset(group: seq<Arrival>, baseNs: nat) returns (at: nat)
    requires group != []
    requires group[0].t0 >= baseNs
    requires forall k :: 0 <= k < |group| ==> group[k].packet.header.dotNum > 0
    ensures var ps := GroupPoints(group, baseNs);
            && at < |ps| && ps[at].offsetNs == GroupEndNs(group, baseNs) - baseNs
            && forall i :: 0 <= i < |ps| ==> ps[i].offsetNs <= GroupEndNs(group, baseNs) - baseNs
    decreases |group|
  {
    var before, a := group[..|group| - 1], group[|group| - 1];
    PacketOffsets(a, baseNs);
    if before == [] {
      at := |ExactPoints(a, baseNs)| - 1;
    } else {
      at := LargestOffset(before, baseNs);
      if LastSampleNs(a) > GroupEndNs(before, baseNs) { at := |GroupPoints(group, baseNs)| - 1; }
    }
  }

  /** Frame `k` of a run, in terms of the packets of its piece. */
  predicate FrameIsExact(frame: Frame, k: nat, group: seq<Arrival>) {
    && Coherent(group)
    && frame == FrameOf(k % 0x1_0000_0000, group)
  }

  lemma {:induction false} PieceOfFrame(pieces: seq<Piece>, k: nat) returns (at: nat)
    requires k < DeliveredCount(pieces)
    ensures at < |pieces| && pieces[at].Delivered?
    ensures DeliveredCount(pieces[..at]) == k
    ensures DeliveredFrames(pieces)[k] == pieces[at].frame
    decreases |pieces|
  {
    var before := pieces[..|pieces| - 1];
    if k < DeliveredCount(before) {
      at := PieceOfFrame(before, k);
      assert before[..at] == pieces[..at];
    } else {
      at := |pieces| - 1;
    }
  }

  /**
    Every frame of every run is exactly the frame of a non-empty group of accepted packets of one
    data type and one time type: the indices are consecutive, each offset is the sample time minus
    the base (0 if earlier) without saturation, and the largest one is the end minus the base.
  */
  lemma EveryFrameIsExact(policy: FramePolicy, timestamps: TimestampPolicy, ops: seq<Op>, k: nat)
    returns (group: seq<Arrival>, largest: nat)
    requires k < |Outputs(policy, timestamps, ops).1|
    ensures var f := Outputs(policy, timestamps, ops).1[k];
            && FrameIsExact(f, k, group)
            && Delivered(group, f) in Traced(policy, timestamps, ops).pieces
            && largest < |f.points|
            && f.points[largest].offsetNs == f.endTimeNs - f.baseTimeNs
            && forall i :: 0 <= i < |f.points| ==> f.points[i].offsetNs <= f.endTimeNs - f.baseTimeNs
  {
    RunKeeps(policy, timestamps, ops);
    OutputsAreDelivered(policy, timestamps, ops);
    var t := Traced(policy, timestamps, ops);
    var at := PieceOfFrame(t.pieces, k);
    assert PieceMatches(t.pieces, at);
    group := t.pieces[at].arrivals;
    largest := LargestOffset(group, BaseNs(group));
  }

  /** A frame that only the frame counter decided about holds one frame counter value. */
  lemma {:induction false} CounterFramesAreUniform(group: seq<Arrival>, k: nat)
    requires Coherent(group) && k < |group|
    requires forall j :: 0 < j < |group| ==> !group[j].timed
    ensures group[k].packet.header.frameCnt == FrameOf(0, group).frameCnt
  {
    if k != 0 {
      CounterFramesAreUniform(group, k - 1);
      assert !group[k].timed;
    }
  }
}
