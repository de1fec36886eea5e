/**
  The window grid from a state with an open frame, as after the fallback of a frame-counter policy or
  a change of policy in the middle of a frame. The cells are counted from the open frame's window
  start; the open frame is in the first cell.
*/
module OpenFrameGrid {
  import opened AssemblerRuns
  import opened Division
  import opened FrameAssembler
  import opened Packets
  import opened TimeMapper
  import opened WindowGrid

  // ---------------------------------------------------------------------------
  // Reference: the cells from a given start
  // ---------------------------------------------------------------------------

  /** The grid: its start, the base of the open frame in the first cell, and the window. */
  datatype Grid = Grid(start: nat, base: nat, window: nat)

  /** The time before packet `k`: that of the packet before, or the start. */
  function Before(g: Grid, ts: seq<nat>, k: nat): (t: nat)
    requires k <= |ts|
  {
    if k == 0 then g.start else ts[k - 1]
  }

  /** Packet `k` lies in another cell than the one before. */
  predicate Moves(g: Grid, ts: seq<nat>, k: nat)
    requires k < |ts| && g.window > 0
  {
    (ts[k] - g.start) / g.window != (Before(g, ts, k) - g.start) / g.window
  }

  /** The base of the frame that is open before packet `k` if the cells decide. */
  function BaseBefore(g: Grid, ts: seq<nat>, k: nat): (b: nat)
    requires k <= |ts| && g.window > 0
  {
    if k == 0 then g.base
    else if Moves(g, ts, k - 1) then ts[k - 1]
    else BaseBefore(g, ts, k - 1)
  }

  predicate Reaches(g: Grid, ts: seq<nat>, spanNs: nat, k: nat)
    requires k < |ts| && g.window > 0
  {
    ts[k] - BaseBefore(g, ts, k) + spanNs <= OFFSET_MAX
  }

  predicate AtBoundary(g: Grid, ts: seq<nat>, k: nat)
    requires k < |ts| && g.window > 0 && g.start <= ts[k]
  {
    Moves(g, ts, k) && ts[k] == StartOfCell(g.start, g.window, ts[k])
  }

  /** The times do not go back, and the first is not before the base of the open frame. */
  predicate Follows(g: Grid, ts: seq<nat>) {
    g.window > 0 && g.start <= g.base && InOrder(ts) && (ts != [] ==> g.base <= ts[0])
  }

  predicate Fit(g: Grid, ts: seq<nat>, spans: seq<nat>)
    requires Follows(g, ts) && |ts| == |spans|
  {
    ts == [] ||
    (var n := |ts| - 1;
     && Fit(g, ts[..n], spans[..n])
     && (Reaches(g, ts, spans[n], n) || AtBoundary(g, ts, n)))
  }

  lemma {:induction false} BaseOfPrefix(g: Grid, a: seq<nat>, b: seq<nat>, k: nat)
    requires k <= |a| <= |b| && a == b[..|a|] && g.window > 0
    ensures BaseBefore(g, a, k) == BaseBefore(g, b, k)
  {
    if k != 0 { BaseOfPrefix(g, a, b, k - 1); }
  }

  lemma {:induction false} BaseIsPast(g: Grid, ts: seq<nat>, k: nat)
    requires Follows(g, ts) && k < |ts|
    ensures BaseBefore(g, ts, k) <= ts[k]
  {
    hide Moves;
    if k != 0 { BaseIsPast(g, ts, k - 1); }
  }

  // ---------------------------------------------------------------------------
  // Streams
  // ---------------------------------------------------------------------------

  function GridOf(s: State): (g: Grid) {
    Grid(s.windowStart, s.cur.baseTimeNs, Window(s.policy))
  }

  /**
    Packets of the open frame's format in time order, in time-window mode; the first one may be the
    one at which a frame-counter policy falls back.
  */
  predicate Continues(s: State, stream: seq<Arriving>) {
    && s.cur.points != []
    && Follows(GridOf(s), PushAll(s, stream).times)
    && (stream != [] ==> TimeWindowActive(s) || FallsBackAt(s, stream[0].packet.header, stream[0].recvNs))
    && forall k :: 0 <= k < |stream| ==>
         && !Ignored(stream[k].packet.header)
         && stream[k].packet.header.dataType == s.cur.sourceType
         && stream[k].packet.header.timeType == s.cur.timeType
  }

  predicate EndsOnGridFrom(s: State, stream: seq<Arriving>)
    requires stream != [] && Continues(s, stream)
  {
    var g, r, n := GridOf(s), PushAll(s, stream), |stream| - 1;
    && r.state.windowStart == StartOfCell(g.start, g.window, r.times[n])
    && (r.cuts[n] <==> Moves(g, r.times, n))
  }

  predicate OnGridFrom(s: State, stream: seq<Arriving>)
    requires Continues(s, stream)
  {
    stream == [] ||
    (EndsOnGridFrom(s, stream) && (ContinuesPrefix(s, stream); OnGridFrom(s, stream[..|stream| - 1])))
  }

  /** The open frame of a stream that has been on the grid. */
  predicate TracksFrom(s: State, stream: seq<Arriving>)
    requires Continues(s, stream)
  {
    var g, r := GridOf(s), PushAll(s, stream);
    && (stream != [] ==> TimeWindowActive(r.state))
    && r.state.policy == s.policy && r.state.cur.points != []
    && r.state.cur.sourceType == s.cur.sourceType && r.state.cur.timeType == s.cur.timeType
    && r.state.cur.baseTimeNs == BaseBefore(g, r.times, |stream|)
    && g.start <= Before(g, r.times, |stream|)
    && r.state.windowStart == StartOfCell(g.start, g.window, Before(g, r.times, |stream|))
  }

  lemma ContinuesPrefix(s: State, stream: seq<Arriving>)
    requires stream != [] && Continues(s, stream)
    ensures Continues(s, stream[..|stream| - 1])
  {
    hide Pushed, Mapped, FallsBackAt;
    var before, r := PushAll(s, stream[..|stream| - 1]), PushAll(s, stream);
    assert before.times == r.times[..|stream| - 1];
  }

  lemma TracksAtFirst(s: State)
    requires Continues(s, [])
    ensures TracksFrom(s, [])
  {
    var w := Window(s.policy);
    Quotient(0, w, 0, 0);
  }

  /** The last push of a stream, as one step of the assembler. */
  lemma LastStepFrom(s: State, stream: seq<Arriving>)
    requires stream != [] && Continues(s, stream)
    requires (ContinuesPrefix(s, stream); TracksFrom(s, stream[..|stream| - 1]))
    ensures var n := |stream| - 1;
            var g, before, r := GridOf(s), PushAll(s, stream[..n]), PushAll(s, stream);
            var h, u := stream[n].packet.header, r.times[n];
            && before.times == r.times[..n]
            && TimedStep(before.state, r.state, r.cuts[n], h, u)
            && g.start <= Before(g, r.times, n) <= u
            && before.state.windowStart == StartOfCell(g.start, g.window, Before(g, r.times, n))
            && before.state.cur.baseTimeNs == BaseBefore(g, r.times, n)
            && (!Breaks(before.state, h, u) <==> Reaches(g, r.times, SpanNs(h), n))
  {
    hide Pushed, StartOfCell;
    ContinuesPrefix(s, stream);
    var n := |stream| - 1;
    var g, before, r := GridOf(s), PushAll(s, stream[..n]), PushAll(s, stream);
    assert n == 0 ==> stream[..n] == [] && before == Streamed(s, [], []);
    TimedPush(before.state, stream[n].packet, stream[n].recvNs);
    assert before.times == r.times[..n];
    BaseOfPrefix(g, before.times, r.times, n);
    BaseIsPast(g, r.times, n);
  }

  /** The grid step in terms of the cells from the given start. */
  lemma StepFrom(g: Grid, ts: seq<nat>, n: nat, start: nat, start': nat, fits: bool, cut: bool)
    requires g.window > 0 && n < |ts| && g.start <= Before(g, ts, n) <= ts[n]
    requires start == StartOfCell(g.start, g.window, Before(g, ts, n)) && start <= ts[n]
    requires cut == (ts[n] >= start + g.window || !fits)
    requires start' == if !cut then start else if fits then GridStart(start, g.window, ts[n]) else ts[n]
    ensures (start' == StartOfCell(g.start, g.window, ts[n]) && (cut <==> Moves(g, ts, n)))
            <==> fits || AtBoundary(g, ts, n)
  {
    GridStep(g.start, g.window, Before(g, ts, n), ts[n], start, start', fits, cut);
  }

  /** One more packet keeps a stream on the grid exactly when its gap fits. */
  lemma NextPacketFrom(s: State, stream: seq<Arriving>)
    requires stream != [] && Continues(s, stream)
    requires (ContinuesPrefix(s, stream); TracksFrom(s, stream[..|stream| - 1]))
    ensures var g, r, n := GridOf(s), PushAll(s, stream), |stream| - 1;
            EndsOnGridFrom(s, stream)
            <==> Reaches(g, r.times, SpanNs(stream[n].packet.header), n) || AtBoundary(g, r.times, n)
  {
    hide PushAll, StartOfCell, Continues, Breaks, Reaches, BaseBefore, Moves, AtBoundary, GridStart;
    LastStepFrom(s, stream);
    var n := |stream| - 1;
    var g, before, r := GridOf(s), PushAll(s, stream[..n]), PushAll(s, stream);
    NextCell(g.start, g.window, Before(g, r.times, n), r.times[n]);
    StepFrom(g, r.times, n, before.state.windowStart, r.state.windowStart,
             !Breaks(before.state, stream[n].packet.header, r.times[n]), r.cuts[n]);
  }

  lemma KeepsTrackingFrom(s: State, stream: seq<Arriving>)
    requires stream != [] && Continues(s, stream) && EndsOnGridFrom(s, stream)
    requires (ContinuesPrefix(s, stream); TracksFrom(s, stream[..|stream| - 1]))
    ensures TracksFrom(s, stream)
  {
    hide PushAll, StartOfCell, Breaks, Reaches, Moves, GridStart;
    LastStepFrom(s, stream);
  }

  lemma FitOfPrefix(s: State, stream: seq<Arriving>)
    requires stream != [] && Continues(s, stream)
    ensures (ContinuesPrefix(s, stream);
             var g, before, r, n := GridOf(s), stream[..|stream| - 1], PushAll(s, stream), |stream| - 1;
             Fit(g, r.times, Spans(stream))
             <==> && Fit(g, PushAll(s, before).times, Spans(before))
                  && (Reaches(g, r.times, SpanNs(stream[n].packet.header), n) || AtBoundary(g, r.times, n)))
  {
    hide Reaches, AtBoundary, Pushed;
    ContinuesPrefix(s, stream);
    var before, r, n := stream[..|stream| - 1], PushAll(s, stream), |stream| - 1;
    assert PushAll(s, before).times == r.times[..n] && Spans(before) == Spans(stream)[..n];
  }

  /**
    From any open frame: if and only if every gap fits, the packets that follow are cut exactly at the
    cells of the grid that starts with the open frame's window, and the window stays on it.
  */
  lemma {:induction false} OpenFrameCutsByTheGrid(s: State, stream: seq<Arriving>)
    requires Continues(s, stream)
    ensures OnGridFrom(s, stream) <==> Fit(GridOf(s), PushAll(s, stream).times, Spans(stream))
    ensures OnGridFrom(s, stream) ==> TracksFrom(s, stream)
    decreases |stream|
  {
    hide EndsOnGridFrom, TracksFrom, Reaches, AtBoundary;
    if stream == [] {
      TracksAtFirst(s);
    } else {
      ContinuesPrefix(s, stream);
      OpenFrameCutsByTheGrid(s, stream[..|stream| - 1]);
      FitOfPrefix(s, stream);
      if OnGridFrom(s, stream[..|stream| - 1]) {
        NextPacketFrom(s, stream);
        if EndsOnGridFrom(s, stream) { KeepsTrackingFrom(s, stream); }
      }
    }
  }

  // ---------------------------------------------------------------------------
  // The window start over runs
  // ---------------------------------------------------------------------------

  ghost predicate StartsBefore(s: State) {
    s.cur.points != [] ==> s.windowStart <= s.cur.baseTimeNs
  }

  lemma GridStartIsPast(start: nat, window: nat, t0: nat)
    requires window > 0 && start <= t0
    ensures GridStart(start, window, t0) <= t0
  {
    LaterCell(t0 - start, t0 - start, window);
  }

  lemma AcceptedStartsBefore(s: State, p: Packet, t0: nat, changed: bool, dropped: nat)
    requires StartsBefore(s)
    ensures StartsBefore(Accepted(s, p, t0, changed, dropped).0)
  {
    hide PointsOf, LatestNs, GridStart, FallsBack, Breaks;
    var w := Watched(s, changed, t0);
    if StaysOnGrid(w, p.header, t0) { GridStartIsPast(w.windowStart, Window(w.policy), t0); }
  }

  /** Every run: the window of an open frame starts no later than the frame. */
  lemma {:induction false} WindowStartsBeforeFrame(policy: FramePolicy, timestamps: TimestampPolicy, ops: seq<Op>)
    ensures StartsBefore(Traced(policy, timestamps, ops).state)
  {
    hide ArrivalOf, StartsBefore;
    if ops == [] {
      FreshStartsBefore(policy, timestamps);
    } else {
      WindowStartsBeforeFrame(policy, timestamps, ops[..|ops| - 1]);
      AppliedStartsBefore(Traced(policy, timestamps, ops[..|ops| - 1]).state, ops[|ops| - 1]);
    }
  }

  lemma FreshStartsBefore(policy: FramePolicy, timestamps: TimestampPolicy)
    ensures StartsBefore(Fresh(policy, timestamps))
  {
  }

  lemma AppliedStartsBefore(s: State, op: Op)
    requires StartsBefore(s)
    ensures StartsBefore(Applied(s, op).0)
  {
    hide Accepted, Mapped, Drop;
    if op.Push? && !Ignored(op.packet.header) && !Late(s, op.packet.header) {
      var h := op.packet.header;
      AcceptedStartsBefore(Registered(s, h, op.recvNs), op.packet, Mapped(s.mapper, h, op.recvNs).1,
                           FrameChanged(s, h), Drop(s, h).dropped);
    }
  }
}
