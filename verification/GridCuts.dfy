/**
  What of the window grid shows in the frames: a gap that does not fit is cut otherwise than the
  cells say, or a next packet would be.
*/
module GridCuts {
  import opened Bytes
  import opened Division
  import opened FrameAssembler
  import opened Packets
  import opened TimeMapper
  import opened WindowGrid

  /** The last packet was cut off from the one before, or not, otherwise than their cells say. */
  predicate CutDiffers(s: State, stream: seq<Arriving>)
    requires stream != [] && Regular(s, stream)
  {
    var r, n := PushAll(s, stream), |stream| - 1;
    !(r.cuts[n] <==> n > 0 && Cell(r.times, Window(s.policy), n) != Cell(r.times, Window(s.policy), n - 1))
  }

  /** The header fields and receive time at which the mapper gives the time `u`. */
  lemma ReachesTime(m: MapperState, h: PacketHeader, u: U64) returns (timestampNs: U64, recvNs: U64)
    ensures Mapped(m, h.(timestampNs := timestampNs), recvNs).1 == u
  {
    timestampNs, recvNs := u, u;
    if m.policy == HostOffsetOnce && h.timeType == NO_SYNC && m.offset.Some? && !m.synced {
      timestampNs := ToU64(u - m.offset.value);
    }
  }

  /** A one-point packet of the stream's format that is mapped to the time `u`. */
  lemma PacketAt(s: State, stream: seq<Arriving>, u: U64, interval: U16) returns (next: Arriving)
    requires stream != [] && Regular(s, stream)
    requires u >= PushAll(s, stream).times[|stream| - 1]
    ensures PushAll(s, stream + [next]).times == PushAll(s, stream).times + [u]
    ensures Regular(s, stream + [next]) && next.packet.header.timeInterval == interval
  {
    hide Pushed, Mapped;
    var h0, r := stream[0].packet.header, PushAll(s, stream);
    var h := PacketHeader(interval, 1, 0, 0, h0.dataType, h0.timeType, 0);
    var timestampNs, recvNs := ReachesTime(r.state.mapper, h, u);
    var data: seq<Byte> := seq(SampleSize(h0.dataType), _ => 0);
    next := Arriving(RawPacket(h.(timestampNs := timestampNs), data), recvNs);
    var longer := stream + [next];
    assert longer[..|longer| - 1] == stream;
    assert PushAll(s, longer).times == r.times + [u];
    assert longer[0] == stream[0];
  }

  /** The push of one more packet. */
  lemma OneMorePush(s: State, stream: seq<Arriving>, next: Arriving)
    requires !Ignored(next.packet.header) && TimeWindowActive(PushAll(s, stream).state)
    ensures var r, r' := PushAll(s, stream), PushAll(s, stream + [next]);
            && TimedStep(r.state, r'.state, r'.cuts[|stream|], next.packet.header, r'.times[|stream|])
            && TimeWindowActive(r'.state)
  {
    var r := PushAll(s, stream);
    assert (stream + [next])[..|stream|] == stream;
    TimedPush(r.state, next.packet, next.recvNs);
  }

  /** The start of the next cell. */
  lemma NextBoundary(first: nat, window: nat, t: nat)
    requires window > 0 && first <= t
    ensures var b := StartOfCell(first, window, t) + window;
            b > t && StartOfCell(first, window, b) == b && (b - first) / window != (t - first) / window
  {
    var start := StartOfCell(first, window, t);
    NextCell(first, window, t, t);
    NextCell(first, window, t, start + window);
    Quotient(window, window, 1, 0);
  }

  /** Whether the next boundary is within the offset range. */
  predicate BoundaryReached(first: nat, window: nat, t: nat)
    requires window > 0 && first <= t
  {
    StartOfCell(first, window, t) + window <= t + OFFSET_MAX
  }

  /** The time at which a window that starts late shows: the next boundary, or the end of the offset range. */
  function TellingTime(first: nat, window: nat, t: nat): (u: nat)
    requires window > 0 && first <= t
  {
    if BoundaryReached(first, window, t) then StartOfCell(first, window, t) + window else t + OFFSET_MAX
  }

  /** The time interval of a packet there that runs past the offset range. */
  function TellingInterval(first: nat, window: nat, t: nat): (i: U16)
    requires window > 0 && first <= t
  {
    if BoundaryReached(first, window, t) then 0 else 1
  }

  /** The assembler cuts at the telling time exactly if it is in the same cell. */
  lemma LateStep(s: State, s': State, cut: bool, h: PacketHeader, first: nat, t: nat)
    requires var w := Window(s.policy);
             && s.cur.points != [] && s.windowStart == s.cur.baseTimeNs == t
             && s.cur.sourceType == h.dataType && s.cur.timeType == h.timeType && first <= t
             && h.timeInterval == TellingInterval(first, w, t) && t != StartOfCell(first, w, t)
             && TimedStep(s, s', cut, h, TellingTime(first, w, t))
    ensures var w := Window(s.policy);
            cut <==> OneCell(first, w, t, TellingTime(first, w, t))
  {
    hide StartOfCell, Window, TellingTime, OneCell, BoundaryReached;
    TellingCell(first, Window(s.policy), t);
  }

  lemma TellingCell(first: nat, window: nat, t: nat)
    requires window > 0 && first <= t && t != StartOfCell(first, window, t)
    ensures var u := TellingTime(first, window, t);
            && t <= u < t + window && u <= t + OFFSET_MAX
            && (BoundaryReached(first, window, t) <==> !OneCell(first, window, t, u))
            && (!BoundaryReached(first, window, t) ==> u == t + OFFSET_MAX)
  {
    hide StartOfCell, OneCell;
    PastCell(first, window, t, t);
    assert OneCell(first, window, t, t) by { SameTimeOneCell(first, window, t); }
    PastCell(first, window, t, TellingTime(first, window, t));
  }

  /** Two times of one cell. */
  predicate OneCell(first: nat, window: nat, t: nat, u: nat)
    requires window > 0
  {
    (u - first) / window == (t - first) / window
  }

  lemma SameTimeOneCell(first: nat, window: nat, t: nat)
    requires window > 0
    ensures OneCell(first, window, t, t)
  {
  }

  lemma PastCell(first: nat, window: nat, t: nat, u: nat)
    requires window > 0 && first <= t <= u
    ensures var start := StartOfCell(first, window, t);
            start <= t && (u >= start + window <==> !OneCell(first, window, t, u))
  {
    NextCell(first, window, t, u);
  }

  /** After a packet that started its window between two boundaries, a packet at the telling time. */
  lemma LateWindowShows(s: State, stream: seq<Arriving>, next: Arriving)
    requires stream != [] && Regular(s, stream) && Regular(s, stream + [next])
    requires var r, w, n := PushAll(s, stream), Window(s.policy), |stream| - 1;
             && TimeWindowActive(r.state) && r.state.policy == s.policy && r.state.cur.points != []
             && r.state.windowStart == r.state.cur.baseTimeNs == r.times[n]
             && r.state.cur.sourceType == stream[0].packet.header.dataType
             && r.state.cur.timeType == stream[0].packet.header.timeType
             && r.times[n] != StartOfCell(r.times[0], w, r.times[n])
             && PushAll(s, stream + [next]).times == r.times + [TellingTime(r.times[0], w, r.times[n])]
             && next.packet.header.timeInterval == TellingInterval(r.times[0], w, r.times[n])
    ensures CutDiffers(s, stream + [next])
  {
    hide Regular, StartOfCell, PushAll, TimedStep, TellingTime, TellingInterval;
    var r, r', n := PushAll(s, stream), PushAll(s, stream + [next]), |stream| - 1;
    SameFormat(s, stream, next);
    OneMorePush(s, stream, next);
    assert r'.times[n] == r.times[n] && r'.times[0] == r.times[0];
    LateStep(r.state, r'.state, r'.cuts[n + 1], next.packet.header, r.times[0], r.times[n]);
  }

  lemma SameFormat(s: State, stream: seq<Arriving>, next: Arriving)
    requires stream != [] && Regular(s, stream) && Regular(s, stream + [next])
    ensures var h0, h := stream[0].packet.header, next.packet.header;
            !Ignored(h) && h.dataType == h0.dataType && h.timeType == h0.timeType
    ensures PushAll(s, stream).times[0] <= PushAll(s, stream).times[|stream| - 1]
  {
    var longer := stream + [next];
    assert longer[0] == stream[0] && longer[|stream|] == next;
  }

  /** One more packet of the stream's format whose gap fits. */
  predicate NextFits(s: State, stream: seq<Arriving>, next: Arriving) {
    && stream != [] && Regular(s, stream + [next])
    && GapFits(PushAll(s, stream + [next]).times, Window(s.policy), SpanNs(next.packet.header), |stream|)
  }

  /**
    The first gap that does not fit shows in the frames: its packet is cut otherwise than the cells
    say, or a next packet would be, and for a window within the offset range one whose own gap fits.
  */
  lemma MisfitShows(s: State, stream: seq<Arriving>) returns (next: Arriving)
    requires |stream| > 1 && Regular(s, stream)
    requires (RegularPrefix(s, stream); OnGrid(s, stream[..|stream| - 1]))
    requires var r, n := PushAll(s, stream), |stream| - 1;
             && !GapFits(r.times, Window(s.policy), SpanNs(stream[n].packet.header), n)
             && r.times[n] + Window(s.policy) < 0x1_0000_0000_0000_0000
    ensures CutDiffers(s, stream) || (Regular(s, stream + [next]) && CutDiffers(s, stream + [next]))
    ensures !CutDiffers(s, stream) && Window(s.policy) <= OFFSET_MAX ==> NextFits(s, stream, next)
  {
    hide PushAll, Regular, Tracks, OnGrid, StartOfCell, GapFits, CutDiffers, TellingTime;
    var r, w, n := PushAll(s, stream), Window(s.policy), |stream| - 1;
    SameFormatLast(s, stream);
    TellingTimeBounds(r.times[0], w, r.times[n]);
    next := PacketAt(s, stream, TellingTime(r.times[0], w, r.times[n]), TellingInterval(r.times[0], w, r.times[n]));
    if !CutDiffers(s, stream) {
      MisfitStartsLate(s, stream);
      LateWindowShows(s, stream, next);
      if w <= OFFSET_MAX { TellingTimeFits(r.times, w, SpanNs(next.packet.header)); }
    }
  }

  lemma TellingTimeBounds(first: nat, window: nat, t: nat)
    requires window > 0 && first <= t
    ensures t <= TellingTime(first, window, t) <= t + window
  {
    hide StartOfCell;
    NextBoundary(first, window, t);
    NextCell(first, window, t, t);
  }

  /** For a window within the offset range, the telling time is a boundary. */
  lemma TellingTimeFits(ts: seq<nat>, window: nat, spanNs: nat)
    requires ts != [] && InOrder(ts) && 0 < window <= OFFSET_MAX
    ensures var longer := ts + [TellingTime(ts[0], window, ts[|ts| - 1])];
            longer[0] <= longer[|ts|] && GapFits(longer, window, spanNs, |ts|)
  {
    hide StartOfCell;
    var first, t := ts[0], ts[|ts| - 1];
    NextBoundary(first, window, t);
    NextCell(first, window, t, t);
    var longer := ts + [TellingTime(first, window, t)];
    assert longer[|ts| - 1] == t && longer[0] == first;
    assert OnBoundary(longer, window, |ts|);
  }

  /** A gap that does not fit, at a packet cut as its cell says, starts the window late. */
  lemma MisfitStartsLate(s: State, stream: seq<Arriving>)
    requires |stream| > 1 && Regular(s, stream) && !CutDiffers(s, stream)
    requires (RegularPrefix(s, stream); OnGrid(s, stream[..|stream| - 1]))
    requires var r, n := PushAll(s, stream), |stream| - 1;
             !GapFits(r.times, Window(s.policy), SpanNs(stream[n].packet.header), n)
    ensures var r, w, n := PushAll(s, stream), Window(s.policy), |stream| - 1;
            && TimeWindowActive(r.state) && r.state.policy == s.policy && r.state.cur.points != []
            && r.state.windowStart == r.state.cur.baseTimeNs == r.times[n]
            && r.state.cur.sourceType == stream[0].packet.header.dataType
            && r.state.cur.timeType == stream[0].packet.header.timeType
            && r.times[0] <= r.times[n] && r.times[n] != StartOfCell(r.times[0], w, r.times[n])
  {
    hide PushAll, Regular, OnGrid, StartOfCell, Breaks;
    RegularPrefix(s, stream);
    CutsByTheGrid(s, stream[..|stream| - 1]);
    LastStep(s, stream);
    SameFormatLast(s, stream);
    TracksPolicy(s, stream[..|stream| - 1]);
  }

  lemma TracksPolicy(s: State, stream: seq<Arriving>)
    requires stream != [] && Regular(s, stream) && Tracks(s, stream)
    ensures PushAll(s, stream).state.policy == s.policy && PushAll(s, stream).state.cur.points != []
  {
  }

  lemma SameFormatLast(s: State, stream: seq<Arriving>)
    requires stream != [] && Regular(s, stream)
    ensures var h0, h := stream[0].packet.header, stream[|stream| - 1].packet.header;
            h.dataType == h0.dataType && h.timeType == h0.timeType
    ensures InOrder(PushAll(s, stream).times) && PushAll(s, stream).times[0] <= PushAll(s, stream).times[|stream| - 1]
  {
  }

  /** The last packet was cut as the cells say, and so would any next packet be whose gap fits. */
  ghost predicate ShowsHere(s: State, stream: seq<Arriving>)
    requires stream != [] && Regular(s, stream)
  {
    && !CutDiffers(s, stream)
    && forall next :: NextFits(s, stream, next) ==> !CutDiffers(s, stream + [next])
  }

  /** Seen from outside: every packet so far was cut as the cells say, and so would any next one be. */
  ghost predicate ShowsGrid(s: State, stream: seq<Arriving>)
    requires Regular(s, stream)
  {
    stream == [] ||
    (&& ShowsHere(s, stream)
     && (|stream| > 1 ==> (RegularPrefix(s, stream); ShowsGrid(s, stream[..|stream| - 1]))))
  }

  lemma OnGridAgrees(s: State, stream: seq<Arriving>)
    requires stream != [] && Regular(s, stream) && GapsFit(PushAll(s, stream).times, Spans(stream), Window(s.policy))
    ensures !CutDiffers(s, stream)
  {
    hide GapsFit, Regular, PushAll, Cell;
    CutsByTheGrid(s, stream);
  }

  lemma FittingNext(s: State, stream: seq<Arriving>, next: Arriving)
    requires Regular(s, stream) && NextFits(s, stream, next)
    requires GapsFit(PushAll(s, stream).times, Spans(stream), Window(s.policy))
    ensures !CutDiffers(s, stream + [next])
  {
    hide GapsFit, GapFits, Regular, CutDiffers;
    var longer := stream + [next];
    assert longer[..|longer| - 1] == stream && longer[|longer| - 1] == next;
    GapsOfPrefix(s, longer);
    OnGridAgrees(s, longer);
  }

  /**
    For a window within the offset range: the frames of a regular stream, and of every fitting
    continuation of any part of it, are cut exactly by the cells if and only if every gap fits.
  */
  lemma {:induction false} GapsFitExactlyIfShown(s: State, stream: seq<Arriving>)
    requires stream != [] && Regular(s, stream) && Window(s.policy) <= OFFSET_MAX
    requires PushAll(s, stream).times[|stream| - 1] + Window(s.policy) < 0x1_0000_0000_0000_0000
    ensures GapsFit(PushAll(s, stream).times, Spans(stream), Window(s.policy)) <==> ShowsGrid(s, stream)
    decreases |stream|
  {
    hide GapsFit, ShowsHere, Tracks, Regular, PushAll, GapFits, OnGrid;
    SameFormatLast(s, stream);
    if GapsFit(PushAll(s, stream).times, Spans(stream), Window(s.policy)) { FittingShows(s, stream); }
    if |stream| == 1 {
      OneGapFits(PushAll(s, stream).times, Spans(stream), Window(s.policy));
    } else {
      RegularPrefix(s, stream);
      GapsOfPrefix(s, stream);
      PrefixTime(s, stream);
      GapsFitExactlyIfShown(s, stream[..|stream| - 1]);
      if GapsFit(PushAll(s, stream[..|stream| - 1]).times, Spans(stream[..|stream| - 1]), Window(s.policy)) {
        CutsByTheGrid(s, stream[..|stream| - 1]);
        MisfitIsNotHidden(s, stream);
      }
    }
  }

  lemma FittingShows(s: State, stream: seq<Arriving>)
    requires stream != [] && Regular(s, stream) && GapsFit(PushAll(s, stream).times, Spans(stream), Window(s.policy))
    ensures ShowsHere(s, stream)
  {
    hide GapsFit, CutDiffers, GapFits, PushAll;
    OnGridAgrees(s, stream);
    forall next | NextFits(s, stream, next) ensures !CutDiffers(s, stream + [next]) {
      FittingNext(s, stream, next);
    }
  }

  lemma MisfitIsNotHidden(s: State, stream: seq<Arriving>)
    requires |stream| > 1 && Regular(s, stream) && Window(s.policy) <= OFFSET_MAX
    requires (RegularPrefix(s, stream); OnGrid(s, stream[..|stream| - 1]))
    requires PushAll(s, stream).times[|stream| - 1] + Window(s.policy) < 0x1_0000_0000_0000_0000
    ensures var n := |stream| - 1;
            ShowsHere(s, stream)
            ==> GapFits(PushAll(s, stream).times, Window(s.policy), SpanNs(stream[n].packet.header), n)
  {
    hide GapFits, CutDiffers, NextFits, Regular, PushAll, OnGrid;
    SameFormatLast(s, stream);
    if !GapFits(PushAll(s, stream).times, Window(s.policy), SpanNs(stream[|stream| - 1].packet.header), |stream| - 1) {
      var next := MisfitShows(s, stream);
    }
  }

  lemma PrefixTime(s: State, stream: seq<Arriving>)
    requires |stream| > 1 && Regular(s, stream)
    ensures InOrder(PushAll(s, stream).times) && Regular(s, stream[..|stream| - 1])
    ensures InOrder(PushAll(s, stream[..|stream| - 1]).times)
    ensures PushAll(s, stream[..|stream| - 1]).times[|stream| - 2] <= PushAll(s, stream).times[|stream| - 1]
  {
    hide Pushed;
    RegularPrefix(s, stream);
    var n := |stream| - 1;
    assert PushAll(s, stream[..n]).times == PushAll(s, stream).times[..n];
  }

  lemma OneGapFits(ts: seq<nat>, spans: seq<nat>, window: nat)
    requires |ts| == |spans| == 1 && window > 0
    ensures InOrder(ts) && GapsFit(ts, spans, window)
  {
  }

  /** A packet of one point at the given LiDAR time. */
  function OnePoint(timestampNs: U64): Arriving {
    Arriving(RawPacket(PacketHeader(0, 1, 0, 0, Cartesian16, NO_SYNC, timestampNs), [0, 0, 0, 0, 0, 0, 0, 0]), 0)
  }

  lemma AcceptedKeepsMapper(s: State, p: Packet, t0: nat, changed: bool, dropped: nat)
    ensures Accepted(s, p, t0, changed, dropped).0.mapper == s.mapper
  {
  }

  lemma LidarPolicyStays(s: State, p: Packet, recvNs: U64)
    requires s.mapper.policy == Lidar
    ensures Pushed(s, p, recvNs).0.mapper == s.mapper
  {
    hide Accepted;
    AcceptedKeepsMapper(Registered(s, p.header, recvNs), p, p.header.timestampNs, FrameChanged(s, p.header), Drop(s,
        p.header).dropped);
  }

  /** Under the LiDAR timestamp policy the mapped times are the packet timestamps. */
  lemma {:induction false} LidarTimes(s: State, stream: seq<Arriving>, k: nat)
    requires s.mapper.policy == Lidar && k < |stream|
    ensures PushAll(s, stream).times[k] == stream[k].packet.header.timestampNs
    ensures PushAll(s, stream).state.mapper == s.mapper
    decreases |stream|
  {
    hide Pushed;
    var before, a := stream[..|stream| - 1], stream[|stream| - 1];
    if before != [] { LidarTimes(s, before, if k < |before| then k else 0); }
    LidarPolicyStays(PushAll(s, before).state, a.packet, a.recvNs);
  }

  /** The steps of the example below, from a state without an open frame. */
  lemma LongGapSteps(s: State, s1: State, s2: State, s3: State, cuts: seq<bool>)
    requires Window(s.policy) == 100_000_000 && s.cur.points == [] && |cuts| == 3
    requires TimedStep(s, s1, cuts[0], OnePoint(0).packet.header, 0)
    requires TimedStep(s1, s2, cuts[1], OnePoint(5_000_000_050).packet.header, 5_000_000_050)
    requires TimedStep(s2, s3, cuts[2], OnePoint(5_100_000_020).packet.header, 5_100_000_020)
    ensures cuts == [false, true, false]
  {
    hide GridStart;
  }

  /**
    A gap of 5 s leaves the grid of a 100 ms window: the offset field would overflow, so the frame is
    closed by that rule and the next window starts at the packet, between two cells. The third packet
    then opens cell 51, but stays in the frame of cell 50.
  */
  lemma LongGapLeavesTheGrid()
    ensures var s := Fresh(FramePolicy(TimeWindow, 100_000_000), Lidar);
            var stream := [OnePoint(0), OnePoint(5_000_000_050), OnePoint(5_100_000_020)];
            var r := PushAll(s, stream);
            && Regular(s, stream)
            && r.cuts == [false, true, false]
            && Cell(r.times, 100_000_000, 1) == 50 && Cell(r.times, 100_000_000, 2) == 51
  {
    hide Pushed, Mapped, TimedStep;
    var s := Fresh(FramePolicy(TimeWindow, 100_000_000), Lidar);
    var a, b, c := OnePoint(0), OnePoint(5_000_000_050), OnePoint(5_100_000_020);
    var stream := [a, b, c];
    LidarTimes(s, stream, 0);
    LidarTimes(s, stream, 1);
    LidarTimes(s, stream, 2);
    assert PushAll(s, []) == Streamed(s, [], []);
    OneMorePush(s, [], a);
    assert [] + [a] == [a];
    OneMorePush(s, [a], b);
    assert [a] + [b] == [a, b];
    OneMorePush(s, [a, b], c);
    assert [a, b] + [c] == stream;
    assert stream[..2] == [a, b] && [a, b][..1] == [a];
    LongGapSteps(s, PushAll(s, [a]).state, PushAll(s, [a, b]).state, PushAll(s, stream).state, PushAll(s, stream).cuts);
  }
}
