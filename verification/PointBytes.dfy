/** What the points of a run hold: the payload bytes of the packets, at the times of their samples. */
module PointBytes {
  import opened AssemblerFrames
  import opened AssemblerRuns
  import opened Bytes
  import opened FrameAssembler
  import opened Packets
  import opened Seqs
  import opened TimeMapper

  /** The raw bytes of the samples, one after the other. */
  function RawBytes(samples: seq<Sample>): (bytes: seq<Byte>) {
    if samples == [] then [] else RawBytes(samples[..|samples| - 1]) + samples[|samples| - 1].raw
  }

  /** The payloads of the packets, one after the other. */
  function Payloads(arrivals: seq<Arrival>): (bytes: seq<Byte>) {
    if arrivals == [] then [] else Payloads(arrivals[..|arrivals| - 1]) + arrivals[|arrivals| - 1].packet.data
  }

  lemma SampleEnds(n: nat, i: nat, dots: nat)
    requires i < dots
    ensures i * n + n == (i + 1) * n <= dots * n
  {
    assert (dots - i - 1) * n >= 0;
  }

  /** Sample `i` holds the bytes of the payload from `i` sample sizes on. */
  lemma SampleBytes(p: Packet, i: nat, j: nat)
    requires i < p.header.dotNum && j < SampleSize(p.header.dataType)
    ensures var n := SampleSize(p.header.dataType);
            i * n + j < |p.data| && RawSample(p, i)[j] == p.data[i * n + j]
  {
    SampleEnds(SampleSize(p.header.dataType), i, p.header.dotNum);
  }

  lemma {:induction false} RawBytesSplit(a: seq<Sample>, b: seq<Sample>)
    ensures RawBytes(a + b) == RawBytes(a) + RawBytes(b)
  {
    if b == [] {
      assert a + b == a;
    } else {
      var init := b[..|b| - 1];
      RawBytesSplit(a, init);
      assert (a + b)[..|a + b| - 1] == a + init;
      Assoc(RawBytes(a), RawBytes(init), b[|b| - 1].raw);
    }
  }

  /** The first `k` samples of a packet hold the first `k` sample sizes of its payload. */
  lemma {:induction false} FirstSamples(p: Packet, k: nat)
    requires k <= p.header.dotNum
    ensures var n := SampleSize(p.header.dataType);
            k * n <= |p.data| && RawBytes(SamplesOf(p)[..k]) == p.data[..k * n]
  {
    hide RawSample;
    var n := SampleSize(p.header.dataType);
    if k != 0 {
      FirstSamples(p, k - 1);
      SampleEnds(n, k - 1, p.header.dotNum);
      assert SamplesOf(p)[..k][..k - 1] == SamplesOf(p)[..k - 1];
      var raw := RawSample(p, k - 1);
      forall j | 0 <= j < n ensures raw[j] == p.data[(k - 1) * n + j] { SampleBytes(p, k - 1, j); }
      assert p.data[..k * n] == p.data[..(k - 1) * n] + raw;
    }
  }

  lemma PacketBytes(p: Packet)
    ensures RawBytes(SamplesOf(p)) == p.data
  {
    hide RawBytes;
    FirstSamples(p, p.header.dotNum);
    assert SamplesOf(p)[..p.header.dotNum] == SamplesOf(p);
  }

  lemma {:induction false} PayloadsAreKept(arrivals: seq<Arrival>)
    ensures RawBytes(PacketSamples(arrivals)) == Payloads(arrivals)
  {
    hide RawBytes, SamplesOf;
    if arrivals == [] {
      NoBytes();
    } else {
      var init, last := arrivals[..|arrivals| - 1], arrivals[|arrivals| - 1].packet;
      PayloadsAreKept(init);
      RawBytesSplit(PacketSamples(init), SamplesOf(last));
      PacketBytes(last);
    }
  }

  lemma NoBytes()
    ensures RawBytes([]) == []
  {
  }

  /**
    Every run: the points delivered, followed by those of the open frame, hold byte for byte the payloads
    of the accepted packets that were not discarded.
  */
  lemma BytesAreConserved(policy: FramePolicy, timestamps: TimestampPolicy, ops: seq<Op>)
    ensures var t := Traced(policy, timestamps, ops);
            RawBytes(FrameSamples(Outputs(policy, timestamps, ops).1) + Samples(t.state.cur.points))
            == Payloads(Kept(t.pieces) + t.partial)
  {
    hide Traced, Outputs, FrameSamples, RawBytes, Payloads, PacketSamples;
    PointsAreConserved(policy, timestamps, ops);
    var t := Traced(policy, timestamps, ops);
    PayloadsAreKept(Kept(t.pieces) + t.partial);
  }

  // ---------------------------------------------------------------------------
  // Each point of a frame
  // ---------------------------------------------------------------------------

  /** The number of points of the packets. */
  function Dots(group: seq<Arrival>): (n: nat) {
    if group == [] then 0 else Dots(group[..|group| - 1]) + group[|group| - 1].packet.header.dotNum
  }

  lemma {:induction false} PointOfGroup(group: seq<Arrival>, baseNs: nat, x: nat, i: nat)
    requires x < |group| && i < group[x].packet.header.dotNum
    ensures var at, ps := Dots(group[..x]) + i, GroupPoints(group, baseNs);
            at < |ps| == Dots(group) && ps[at] == ExactPoints(group[x], baseNs)[i]
    decreases |group|
  {
    hide ExactPoints;
    var n := |group| - 1;
    DotsOfGroup(group[..n], baseNs);
    if x < n {
      PointOfGroup(group[..n], baseNs, x, i);
      assert group[..n][..x] == group[..x];
    }
  }

  lemma {:induction false} DotsOfGroup(group: seq<Arrival>, baseNs: nat)
    ensures |GroupPoints(group, baseNs)| == Dots(group)
  {
    hide ExactPoints;
    if group != [] { DotsOfGroup(group[..|group| - 1], baseNs); }
  }

  /** What a point says about sample `i` of a packet in a frame of this base. */
  ghost predicate IsSample(point: Point, a: Arrival, i: nat, baseNs: nat)
    requires i < a.packet.header.dotNum
  {
    var h, n := a.packet.header, SampleSize(a.packet.header.dataType);
    && point.source == h.dataType && point.line == i % 4
    && |point.raw| == n && i * n + n <= |a.packet.data|
    && (forall j :: 0 <= j < n ==> point.raw[j] == a.packet.data[i * n + j])
    && (a.t0 >= baseNs ==> IsTime(baseNs + point.offsetNs - a.t0, h, i))
  }

  /** The time `d` after that of the packet is share `i` of its span, rounded down. */
  predicate IsTime(d: int, h: PacketHeader, i: nat) {
    if h.dotNum == 1 then d == 0
    else d * (h.dotNum - 1) <= h.timeInterval * 100 * i < (d + 1) * (h.dotNum - 1)
  }

  lemma ExactIsSample(a: Arrival, i: nat, baseNs: nat)
    requires i < a.packet.header.dotNum
    ensures IsSample(ExactPoints(a, baseNs)[i], a, i, baseNs)
  {
    hide RawSample, SampleDelta;
    var p, n := a.packet, SampleSize(a.packet.header.dataType);
    SampleEnds(n, i, p.header.dotNum);
    SamplesAreSpread(p.header, i);
    forall j | 0 <= j < n ensures RawSample(p, i)[j] == p.data[i * n + j] { SampleBytes(p, i, j); }
  }

  /**
    Every run: the points of frame `k` are the samples of its packets in order. The point of sample `i`
    of packet `x` has the bytes of that sample, its line, and as offset the time of the sample, which is
    its share of the packet's span.
  */
  lemma EveryPointIsItsSample(
    policy: FramePolicy, timestamps: TimestampPolicy, ops: seq<Op>, k: nat, x: nat, i: nat)
    returns (group: seq<Arrival>)
    requires k < |Outputs(policy, timestamps, ops).1|
    ensures var f := Outputs(policy, timestamps, ops).1[k];
            && Delivered(group, f) in Traced(policy, timestamps, ops).pieces
            && group != [] && f.baseTimeNs == BaseNs(group) && |f.points| == Dots(group)
            && (x < |group| && i < group[x].packet.header.dotNum ==>
                  && Dots(group[..x]) + i < |f.points|
                  && IsSample(f.points[Dots(group[..x]) + i], group[x], i, f.baseTimeNs))
  {
    hide Outputs, Traced, IsSample, GroupPoints, ExactPoints;
    var largest: nat;
    group, largest := EveryFrameIsExact(policy, timestamps, ops, k);
    DotsOfGroup(group, BaseNs(group));
    if x < |group| && i < group[x].packet.header.dotNum {
      PointOfGroup(group, BaseNs(group), x, i);
      ExactIsSample(group[x], i, BaseNs(group));
    }
  }
}
