/**
  The time window as a grid. The reference cuts a stream of packets by the cell
  floor((t - first) / window) its time falls into; the incremental assembler is compared with it
  packet by packet, for every stream of point packets of one format and one time base whose
  mapped times do not go back.
*/
module WindowGrid {
  import opened Bytes
  import opened Division
  import opened FrameAssembler
  import opened Packets
  import opened TimeMapper

  // ---------------------------------------------------------------------------
  // Reference: the cells of a sequence of times
  // ---------------------------------------------------------------------------

  predicate InOrder(ts: seq<nat>) {
    forall i, j :: 0 <= i <= j < |ts| ==> ts[i] <= ts[j]
  }

  /** The grid cell of time `k`, counted from the first one. */
  function Cell(ts: seq<nat>, window: nat, k: nat): (c: int)
    requires k < |ts| && window > 0
  {
    (ts[k] - ts[0]) / window
  }

  function StartOfCell(first: nat, window: nat, t: nat): (start: nat)
    requires window > 0 && first <= t
  {
    DivideMonotone(0, t - first, window);
    assert window * ((t - first) / window) >= 0;
    first + window * ((t - first) / window)
  }

  /** The first time in the cell of time `k`. */
  function FirstOfCell(ts: seq<nat>, window: nat, k: nat): (f: nat)
    requires k < |ts| && window > 0
    ensures f <= k
  {
    if k == 0 || Cell(ts, window, k) != Cell(ts, window, k - 1) then k else FirstOfCell(ts, window, k - 1)
  }

  /** The last sample can still be expressed as an offset from the first packet of the cell before. */
  predicate OffsetReaches(ts: seq<nat>, window: nat, spanNs: nat, k: nat)
    requires 0 < k < |ts| && window > 0
  {
    ts[k] - ts[FirstOfCell(ts, window, k - 1)] + spanNs <= OFFSET_MAX
  }

  /** The packet opens a new cell exactly on its boundary. */
  predicate OnBoundary(ts: seq<nat>, window: nat, k: nat)
    requires 0 < k < |ts| && window > 0 && ts[0] <= ts[k]
  {
    Cell(ts, window, k) != Cell(ts, window, k - 1) && ts[k] == StartOfCell(ts[0], window, ts[k])
  }

  /**
    What the grid needs at packet `k`. A gap too long for the offset field restarts the window at
    the packet, which stays on the grid only if the packet lies on a cell boundary.
  */
  predicate GapFits(ts: seq<nat>, window: nat, spanNs: nat, k: nat)
    requires 0 < k < |ts| && window > 0 && ts[0] <= ts[k]
  {
    OffsetReaches(ts, window, spanNs, k) || OnBoundary(ts, window, k)
  }

  // ---------------------------------------------------------------------------
  // Arithmetic of the grid
  // ---------------------------------------------------------------------------

  /** A later time is past the window exactly when its cell is later, and then restarts on the grid. */
  lemma NextCell(first: nat, window: nat, t: nat, u: nat)
    requires window > 0 && first <= t <= u
    ensures var start := StartOfCell(first, window, t);
            && start <= t
            && (u >= start + window <==> (u - first) / window != (t - first) / window)
            && GridStart(start, window, u) == StartOfCell(first, window, u)
  {
    LaterCell(t - first, u - first, window);
    DivideFrom(u - first, (t - first) / window, window);
  }

  /** One packet at time `u` after one at `t`: the window stays on the grid iff the gap fits. */
  lemma GridStep(first: nat, window: nat, t: nat, u: nat, start: nat, start': nat, fits: bool, cut: bool)
    requires window > 0 && first <= t <= u
    requires start == StartOfCell(first, window, t)
    requires cut == (u >= start + window || !fits)
    requires start' == if !cut then start else if fits then GridStart(start, window, u) else u
    ensures var moved := (u - first) / window != (t - first) / window;
            (start' == StartOfCell(first, window, u) && (cut <==> moved))
            <==> fits || (moved && u == StartOfCell(first, window, u))
    ensures start' <= u
  {
    NextCell(first, window, t, u);
    NextCell(first, window, u, u);
  }

  /** The packets of one cell lie within one window. */
  lemma WithinOneWindow(ts: seq<nat>, window: nat, k: nat)
    requires InOrder(ts) && k < |ts| && window > 0
    ensures ts[k] - ts[FirstOfCell(ts, window, k)] < window
  {
    var f := FirstOfCell(ts, window, k);
    SameCell(ts, window, k);
    LaterCell(ts[f] - ts[0], ts[k] - ts[0], window);
  }

  lemma {:induction false} SameCell(ts: seq<nat>, window: nat, k: nat)
    requires k < |ts| && window > 0
    ensures Cell(ts, window, FirstOfCell(ts, window, k)) == Cell(ts, window, k)
  {
    if k != 0 && Cell(ts, window, k) == Cell(ts, window, k - 1) { SameCell(ts, window, k - 1); }
  }

  /** The grid step in terms of the cells. */
  lemma CellStep(ts: seq<nat>, window: nat, n: nat, start: nat, start': nat, fits: bool, cut: bool)
    requires InOrder(ts) && 0 < n < |ts| && window > 0
    requires start == StartOfCell(ts[0], window, ts[n - 1]) && start <= ts[n]
    requires cut == (ts[n] >= start + window || !fits)
    requires start' == if !cut then start else if fits then GridStart(start, window, ts[n]) else ts[n]
    ensures (start' == StartOfCell(ts[0], window, ts[n]) && (cut <==> Cell(ts, window, n) != Cell(ts, window, n - 1)))
            <==> fits || OnBoundary(ts, window, n)
  {
    GridStep(ts[0], window, ts[n - 1], ts[n], start, start', fits, cut);
  }

  /** The cells of a prefix are those of the whole. */
  lemma {:induction false} PrefixCells(a: seq<nat>, b: seq<nat>, window: nat, k: nat)
    requires k < |a| <= |b| && a == b[..|a|] && window > 0
    ensures Cell(a, window, k) == Cell(b, window, k)
    ensures FirstOfCell(a, window, k) == FirstOfCell(b, window, k)
  {
    if k != 0 { PrefixCells(a, b, window, k - 1); }
  }

  /** Every gap fits. */
  predicate GapsFit(ts: seq<nat>, spans: seq<nat>, window: nat)
    requires InOrder(ts) && |ts| == |spans| && window > 0
  {
    |ts| <= 1 ||
    (var n := |ts| - 1; GapsFit(ts[..n], spans[..n], window) && GapFits(ts, window, spans[n], n))
  }

  /** Packets no further apart than the offset range less a window have gaps that fit. */
  lemma {:induction false} SmallGapsFit(ts: seq<nat>, spans: seq<nat>, window: nat)
    requires InOrder(ts) && |ts| == |spans| && window > 0
    requires forall k :: 0 < k < |ts| ==> ts[k] - ts[k - 1] + window + spans[k] <= OFFSET_MAX
    ensures GapsFit(ts, spans, window)
  {
    if |ts| > 1 {
      var n := |ts| - 1;
      SmallGapsFit(ts[..n], spans[..n], window);
      WithinOneWindow(ts, window, n - 1);
      assert OffsetReaches(ts, window, spans[n], n);
    }
  }

  // ---------------------------------------------------------------------------
  // One packet in the assembler
  // ---------------------------------------------------------------------------

  /** How a point packet moves the state in time-window mode. */
  predicate TimedStep(s: State, s': State, cut: bool, h: PacketHeader, t0: nat) {
    && TimeWindowActive(s') && s'.policy == s.policy && s'.cur.points != []
    && (cut <==> s.cur.points != [] && (WindowPassed(s, t0) || Breaks(s, h, t0)))
    && (!cut && s.cur.points != [] ==>
          && s'.windowStart == s.windowStart && s'.cur.baseTimeNs == s.cur.baseTimeNs
          && s'.cur.sourceType == s.cur.sourceType && s'.cur.timeType == s.cur.timeType)
    && (cut || s.cur.points == [] ==>
          && s'.cur.baseTimeNs == t0
          && s'.cur.sourceType == h.dataType && s'.cur.timeType == h.timeType
          && s'.windowStart ==
             if s.cur.points != [] && WindowPassed(s, t0) && !Breaks(s, h, t0)
             then GridStart(s.windowStart, Window(s.policy), t0) else t0)
  }

  lemma TimedAccepted(s: State, p: Packet, t0: nat, changed: bool, dropped: nat)
    requires TimeWindowActive(Watched(s, changed, t0)) && !Ignored(p.header)
    ensures var (s', out) := Accepted(s, p, t0, changed, dropped);
            TimedStep(s, s', out.Some?, p.header, t0)
  {
    assert |PointsOf(p, p.header.dotNum, t0, t0)| > 0;
  }

  /** The packet makes a frame-counter policy fall back to the time window. */
  predicate FallsBackAt(s: State, h: PacketHeader, recvNs: U64) {
    FallsBack(Registered(s, h, recvNs), FrameChanged(s, h), Mapped(s.mapper, h, recvNs).1)
  }

  /** In time-window mode every point packet is accepted, and so is the one that switches to it. */
  lemma TimedPush(s: State, p: Packet, recvNs: U64)
    requires (TimeWindowActive(s) || FallsBackAt(s, p.header, recvNs)) && !Ignored(p.header)
    ensures var (s', out) := Pushed(s, p, recvNs);
            TimedStep(s, s', out.Some?, p.header, Mapped(s.mapper, p.header, recvNs).1)
  {
    TimedAccepted(Registered(s, p.header, recvNs), p, Mapped(s.mapper, p.header, recvNs).1,
                  FrameChanged(s, p.header), Drop(s, p.header).dropped);
  }

  // ---------------------------------------------------------------------------
  // A stream of packets
  // ---------------------------------------------------------------------------

  /** A pushed packet and its receive time. */
  datatype Arriving = Arriving(packet: Packet, recvNs: U64)

  /** The state after the stream, the mapped times, and which pushes returned a frame. */
  datatype Streamed = Streamed(state: State, times: seq<nat>, cuts: seq<bool>)

  function PushAll(s: State, stream: seq<Arriving>): (r: Streamed)
    ensures |r.times| == |r.cuts| == |stream|
  {
    if stream == [] then Streamed(s, [], [])
    else
      var before, a := PushAll(s, stream[..|stream| - 1]), stream[|stream| - 1];
      var (state, out) := Pushed(before.state, a.packet, a.recvNs);
      Streamed(state,
               before.times + [Mapped(before.state.mapper, a.packet.header, a.recvNs).1],
               before.cuts + [out.Some?])
  }

  /** The streams compared, from any state in time-window mode without an open frame. */
  predicate Regular(s: State, stream: seq<Arriving>) {
    && TimeWindowActive(s) && s.cur.points == []
    && InOrder(PushAll(s, stream).times)
    && forall k :: 0 <= k < |stream| ==>
         && !Ignored(stream[k].packet.header)
         && stream[k].packet.header.dataType == stream[0].packet.header.dataType
         && stream[k].packet.header.timeType == stream[0].packet.header.timeType
  }

  /** The last packet left the window at the start of its cell, and cut iff its cell is new. */
  predicate EndsOnGrid(s: State, stream: seq<Arriving>)
    requires stream != [] && Regular(s, stream)
  {
    var r, w, n := PushAll(s, stream), Window(s.policy), |stream| - 1;
    && r.state.windowStart == StartOfCell(r.times[0], w, r.times[n])
    && (r.cuts[n] <==> n > 0 && Cell(r.times, w, n) != Cell(r.times, w, n - 1))
  }

  /** The open frame of a stream that has been on the grid: it started with the cell. */
  predicate Tracks(s: State, stream: seq<Arriving>)
    requires stream != [] && Regular(s, stream)
  {
    var r, w, n := PushAll(s, stream), Window(s.policy), |stream| - 1;
    && TimeWindowActive(r.state) && r.state.policy == s.policy && r.state.cur.points != []
    && r.state.cur.sourceType == stream[0].packet.header.dataType
    && r.state.cur.timeType == stream[0].packet.header.timeType
    && r.state.cur.baseTimeNs == r.times[FirstOfCell(r.times, w, n)]
    && r.state.windowStart == StartOfCell(r.times[0], w, r.times[n])
  }

  lemma RegularPrefix(s: State, stream: seq<Arriving>)
    requires |stream| > 1 && Regular(s, stream)
    ensures Regular(s, stream[..|stream| - 1])
  {
    var before, r := PushAll(s, stream[..|stream| - 1]), PushAll(s, stream);
    assert before.times == r.times[..|stream| - 1];
  }

  lemma FirstPacket(s: State, stream: seq<Arriving>)
    requires |stream| == 1 && Regular(s, stream)
    ensures Tracks(s, stream) && EndsOnGrid(s, stream)
  {
    assert stream[..0] == [];
    TimedPush(s, stream[0].packet, stream[0].recvNs);
  }

  /** The last push of a stream, as one step of the assembler. */
  lemma LastStep(s: State, stream: seq<Arriving>)
    requires |stream| > 1 && Regular(s, stream)
    requires (RegularPrefix(s, stream); Tracks(s, stream[..|stream| - 1]))
    ensures var before, r, w, n := PushAll(s, stream[..|stream| - 1]), PushAll(s, stream), Window(s.policy),
        |stream| - 1;
            var h, u := stream[n].packet.header, r.times[n];
            && before.times == r.times[..n]
            && TimedStep(before.state, r.state, r.cuts[n], h, u)
            && before.state.cur.baseTimeNs == r.times[FirstOfCell(r.times, w, n - 1)]
            && before.state.windowStart == StartOfCell(r.times[0], w, r.times[n - 1])
            && (!Breaks(before.state, h, u) <==> OffsetReaches(r.times, w, SpanNs(h), n))
  {
    RegularPrefix(s, stream);
    var before, r, n := PushAll(s, stream[..|stream| - 1]), PushAll(s, stream), |stream| - 1;
    TimedPush(before.state, stream[n].packet, stream[n].recvNs);
    PrefixCells(before.times, r.times, Window(s.policy), n - 1);
    assert r.times[FirstOfCell(r.times, Window(s.policy), n - 1)] <= r.times[n];
  }

  /** One more packet keeps a stream on the grid exactly when its gap fits. */
  lemma NextPacket(s: State, stream: seq<Arriving>)
    requires |stream| > 1 && Regular(s, stream)
    requires (RegularPrefix(s, stream); Tracks(s, stream[..|stream| - 1]))
    ensures var r, n := PushAll(s, stream), |stream| - 1;
            EndsOnGrid(s, stream) <==> GapFits(r.times, Window(s.policy), SpanNs(stream[n].packet.header), n)
  {
    LastStep(s, stream);
    var before, r, n := PushAll(s, stream[..|stream| - 1]), PushAll(s, stream), |stream| - 1;
    NextCell(r.times[0], Window(s.policy), r.times[n - 1], r.times[n]);
    CellStep(r.times, Window(s.policy), n, before.state.windowStart, r.state.windowStart,
             !Breaks(before.state, stream[n].packet.header, r.times[n]), r.cuts[n]);
  }

  lemma KeepsTracking(s: State, stream: seq<Arriving>)
    requires |stream| > 1 && Regular(s, stream) && EndsOnGrid(s, stream)
    requires (RegularPrefix(s, stream); Tracks(s, stream[..|stream| - 1]))
    ensures Tracks(s, stream)
  {
    LastStep(s, stream);
  }

  /** Every push of the stream was on the grid. */
  predicate OnGrid(s: State, stream: seq<Arriving>)
    requires Regular(s, stream)
  {
    stream == [] ||
    (EndsOnGrid(s, stream) && (|stream| > 1 ==> (RegularPrefix(s, stream); OnGrid(s, stream[..|stream| - 1]))))
  }

  function Spans(stream: seq<Arriving>): (spans: seq<nat>)
    ensures |spans| == |stream|
  {
    seq(|stream|, i requires 0 <= i < |stream| => SpanNs(stream[i].packet.header))
  }

  lemma GapsOfPrefix(s: State, stream: seq<Arriving>)
    requires |stream| > 1 && Regular(s, stream)
    ensures (RegularPrefix(s, stream);
             var before, r, n, w := stream[..|stream| - 1], PushAll(s, stream), |stream| - 1, Window(s.policy);
             GapsFit(r.times, Spans(stream), w)
             <==> GapsFit(PushAll(s, before).times, Spans(before), w)
                  && GapFits(r.times, w, SpanNs(stream[n].packet.header), n))
  {
    hide GapFits;
    RegularPrefix(s, stream);
    var before, r, n := stream[..|stream| - 1], PushAll(s, stream), |stream| - 1;
    assert PushAll(s, before).times == r.times[..n] && Spans(before) == Spans(stream)[..n];
  }

  /**
    If and only if every gap fits, the assembler cuts a regular stream exactly at the cells of the
    grid and, push by push, leaves its window at the start of the packet's cell: frame boundaries
    never drift however packets fall.
  */
  lemma {:induction false} CutsByTheGrid(s: State, stream: seq<Arriving>)
    requires stream != [] && Regular(s, stream)
    ensures OnGrid(s, stream) <==> GapsFit(PushAll(s, stream).times, Spans(stream), Window(s.policy))
    ensures OnGrid(s, stream) ==> Tracks(s, stream)
    decreases |stream|
  {
    if |stream| == 1 {
      FirstPacket(s, stream);
    } else {
      hide GapFits, EndsOnGrid, Tracks, GapsFit;
      RegularPrefix(s, stream);
      var before := stream[..|stream| - 1];
      CutsByTheGrid(s, before);
      GapsOfPrefix(s, stream);
      if OnGrid(s, before) {
        NextPacket(s, stream);
        if EndsOnGrid(s, stream) { KeepsTracking(s, stream); }
      }
    }
  }
}
