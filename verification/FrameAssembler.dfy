/**
  The frame assembler (src/frame_assembler.cpp): turns parsed point-cloud packets into frames.
  The class keeps the fields of the original; each method is specified by a function from the
  old state to the new one, and the theorems about whole runs are proved about those functions.
*/
module FrameAssembler {
  import opened Bytes
  import opened DropCounter
  import opened Packets
  import opened TimeMapper
  import opened Wrappers

  const OFFSET_MAX := 0xFFFF_FFFF

  datatype Mode = FrameCounter | TimeWindow

  datatype FramePolicy = FramePolicy(mode: Mode, windowNs: int)

  /**
    One point. `source` and `raw` are all the conversion to metres reads, so equal points convert
    to equal coordinates, reflectivity and tag.
  */
  datatype Point = Point(source: DataType, raw: seq<Byte>, line: nat, offsetNs: nat)

  datatype Frame = Frame(
    index: nat, baseTimeNs: nat, endTimeNs: nat, points: seq<Point>, packets: nat,
    droppedPackets: nat, frameCnt: Byte, sourceType: DataType, timeType: Byte)

  const EMPTY_FRAME := Frame(0, 0, 0, [], 0, 0, 0, Cartesian32, NO_SYNC)

  datatype Counters = Counters(
    packets: nat, points: int, frames: nat, droppedPackets: nat, reordered: nat,
    frameCntFallback: nat, typeSwitchGaps: nat)

  datatype State = State(
    policy: FramePolicy, mapper: MapperState, drops: DropState, counters: Counters, cur: Frame,
    nextIndex: U32, havePrev: bool, prevFrameCnt: Byte, prevDataType: DataType,
    frameCntChangedEver: bool, fallback: bool, firstTime: Option<nat>, windowStart: nat)

  function Fresh(policy: FramePolicy, timestamps: TimestampPolicy): State {
    State(
      policy, MapperState(timestamps, None, false), DropState(false, 0), Counters(0, 0, 0, 0, 0, 0, 0),
      EMPTY_FRAME, 0, false, 0, Imu, false, false, None, 0)
  }

  predicate TimeWindowActive(s: State) {
    s.policy.mode == TimeWindow || s.fallback
  }

  /** The window of the policy, at least a nanosecond. */
  function Window(policy: FramePolicy): (w: nat)
    ensures w >= 1 && w >= policy.windowNs && (w == 1 || w == policy.windowNs)
  {
    if policy.windowNs >= 1 then policy.windowNs else 1
  }

  // ---------------------------------------------------------------------------
  // Points of a packet
  // ---------------------------------------------------------------------------

  function RawSample(p: Packet, i: nat): (raw: seq<Byte>)
    requires i < p.header.dotNum
    ensures |raw| == SampleSize(p.header.dataType)
  {
    var n := SampleSize(p.header.dataType);
    assert (i + 1) * n <= p.header.dotNum * n;
    p.data[i * n..i * n + n]
  }

  /** The offset of a sample within its frame; a sample before the base counts as at the base. */
  function OffsetNs(sampleNs: nat, baseNs: nat): (off: nat) {
    if sampleNs >= baseNs then sampleNs - baseNs else 0
  }

  function Saturated(off: nat): (v: nat)
    ensures v <= OFFSET_MAX
  {
    if off > OFFSET_MAX then OFFSET_MAX else off
  }

  function PointOf(p: Packet, i: nat, t0: nat, baseNs: nat): Point
    requires i < p.header.dotNum
  {
    Point(p.header.dataType, RawSample(p, i), i % 4, Saturated(OffsetNs(t0 + SampleDelta(p.header, i), baseNs)))
  }

  /** The first `n` points of the packet. */
  function PointsOf(p: Packet, n: nat, t0: nat, baseNs: nat): (ps: seq<Point>)
    requires n <= p.header.dotNum
    ensures |ps| == n
  {
    if n == 0 then [] else PointsOf(p, n - 1, t0, baseNs) + [PointOf(p, n - 1, t0, baseNs)]
  }

  /** The latest of `endNs` and the times of the first `n` samples. */
  function LatestNs(p: Packet, n: nat, t0: nat, endNs: nat): (e: nat)
    requires n <= p.header.dotNum
    ensures e >= endNs
  {
    if n == 0 then endNs
    else
      var before := LatestNs(p, n - 1, t0, endNs);
      var ts := t0 + SampleDelta(p.header, n - 1);
      if ts > before then ts else before
  }

  // ---------------------------------------------------------------------------
  // The steps of push()
  // ---------------------------------------------------------------------------

  /** IMU packets and empty packets are not point data. */
  predicate Ignored(h: PacketHeader) {
    h.dataType == Imu || h.dotNum == 0
  }

  predicate FrameChanged(s: State, h: PacketHeader) {
    s.havePrev && h.frameCnt != s.prevFrameCnt
  }

  /** The drop report, without the single skipped count at a data type switch. */
  function Drop(s: State, h: PacketHeader): (d: DropResult) {
    var d := Observed(s.drops, h.udpCnt, FrameChanged(s, h)).1;
    if SwitchGap(s, h) then d.(dropped := 0) else d
  }

  predicate SwitchGap(s: State, h: PacketHeader) {
    Observed(s.drops, h.udpCnt, FrameChanged(s, h)).1.dropped == 1 && s.havePrev && h.dataType != s.prevDataType
  }

  /** Time mapping and drop counting, which every point packet goes through. */
  function Registered(s: State, h: PacketHeader, recvNs: U64): State {
    var d := Drop(s, h);
    s.(mapper := Mapped(s.mapper, h, recvNs).0,
       drops := Observed(s.drops, h.udpCnt, FrameChanged(s, h)).0,
       counters := s.counters.(
         typeSwitchGaps := s.counters.typeSwitchGaps + (if SwitchGap(s, h) then 1 else 0),
         droppedPackets := s.counters.droppedPackets + d.dropped,
         reordered := s.counters.reordered + (if d.reordered then 1 else 0)))
  }

  /** A late packet of a frame already delivered, in frame-counter mode. */
  predicate Late(s: State, h: PacketHeader) {
    Drop(s, h).reordered && FrameChanged(s, h) && !TimeWindowActive(s)
  }

  function Earliest(first: Option<nat>, t0: nat): (t: nat) {
    if first.Some? && first.value <= t0 then first.value else t0
  }

  predicate FallsBack(s: State, changed: bool, t0: nat) {
    && s.policy.mode == FrameCounter && !s.fallback
    && !changed && !s.frameCntChangedEver
    && t0 >= Earliest(s.firstTime, t0) + 2 * Window(s.policy)
  }

  /** First-time bookkeeping and the one-way fallback to the time window. */
  function Watched(s: State, changed: bool, t0: nat): State {
    s.(firstTime := Some(Earliest(s.firstTime, t0)),
       frameCntChangedEver := s.frameCntChangedEver || (s.policy.mode == FrameCounter && !s.fallback && changed),
       fallback := s.fallback || FallsBack(s, changed, t0),
       counters := s.counters.(
         frameCntFallback := s.counters.frameCntFallback + (if FallsBack(s, changed, t0) then 1 else 0)))
  }

  predicate WindowPassed(s: State, t0: nat) {
    t0 >= s.windowStart + Window(s.policy)
  }

  predicate SteppedBack(s: State, t0: nat) {
    t0 + Window(s.policy) <= s.cur.baseTimeNs
  }

  predicate OffsetWouldOverflow(s: State, h: PacketHeader, t0: nat) {
    t0 >= s.cur.baseTimeNs && t0 - s.cur.baseTimeNs + SpanNs(h) > OFFSET_MAX
  }

  /** What closes the frame whatever the policy, and restarts the window grid. */
  predicate Breaks(s: State, h: PacketHeader, t0: nat) {
    || h.dataType != s.cur.sourceType
    || h.timeType != s.cur.timeType
    || SteppedBack(s, t0)
    || OffsetWouldOverflow(s, h, t0)
  }

  predicate Closes(s: State, h: PacketHeader, changed: bool, t0: nat) {
    && s.cur.points != []
    && ((if TimeWindowActive(s) then WindowPassed(s, t0) else changed) || Breaks(s, h, t0))
  }

  predicate StaysOnGrid(s: State, h: PacketHeader, t0: nat) {
    s.cur.points != [] && TimeWindowActive(s) && WindowPassed(s, t0) && !Breaks(s, h, t0)
  }

  function Taken(s: State): (r: (State, Frame)) {
    (s.(counters := s.counters.(frames := s.counters.frames + 1),
        nextIndex := (s.nextIndex + 1) % 0x1_0000_0000,
        cur := EMPTY_FRAME),
     s.cur.(index := s.nextIndex))
  }

  function GridStart(start: nat, window: nat, t0: nat): (w: nat)
    requires window > 0 && start <= t0
  {
    start + window * ((t0 - start) / window)
  }

  /** Starts a frame at the packet; on the grid, its window continues the previous one. */
  function Opened(s: State, h: PacketHeader, t0: nat, onGrid: bool): State
    requires onGrid ==> s.windowStart <= t0
  {
    s.(windowStart := if onGrid then GridStart(s.windowStart, Window(s.policy), t0) else t0,
       cur := s.cur.(baseTimeNs := t0, endTimeNs := t0, frameCnt := h.frameCnt,
                     sourceType := h.dataType, timeType := h.timeType))
  }

  function Appended(s: State, p: Packet, t0: nat, dropped: nat): State {
    var h := p.header;
    s.(cur := s.cur.(
         points := s.cur.points + PointsOf(p, h.dotNum, t0, s.cur.baseTimeNs),
         endTimeNs := LatestNs(p, h.dotNum, t0, s.cur.endTimeNs),
         packets := s.cur.packets + 1,
         droppedPackets := s.cur.droppedPackets + dropped),
       counters := s.counters.(
         packets := s.counters.packets + 1,
         points := s.counters.points + h.dotNum),
       havePrev := true, prevFrameCnt := h.frameCnt, prevDataType := h.dataType)
  }

  /** An accepted packet: closes the open frame when it has to, then joins a frame. */
  function Accepted(s: State, p: Packet, t0: nat, changed: bool, dropped: nat): (r: (State, Option<Frame>)) {
    var h := p.header;
    var w := Watched(s, changed, t0);
    if Closes(w, h, changed, t0) then
      var (taken, frame) := Taken(w);
      (Appended(Opened(taken, h, t0, StaysOnGrid(w, h, t0)), p, t0, dropped), Some(frame))
    else if w.cur.points == [] then (Appended(Opened(w, h, t0, false), p, t0, dropped), None)
    else (Appended(w, p, t0, dropped), None)
  }

  function Pushed(s: State, p: Packet, recvNs: U64): (r: (State, Option<Frame>)) {
    var h := p.header;
    if Ignored(h) then (s, None)
    else
      var r := Registered(s, h, recvNs);
      if Late(s, h) then (r, None)
      else Accepted(r, p, Mapped(s.mapper, h, recvNs).1, FrameChanged(s, h), Drop(s, h).dropped)
  }

  function Flushed(s: State): (r: (State, Option<Frame>)) {
    if s.cur.points == [] then (s, None)
    else
      var (taken, frame) := Taken(s);
      (taken, Some(frame))
  }

  function DiscardedPartial(s: State): State {
    s.(counters := s.counters.(points := s.counters.points - |s.cur.points|),
       cur := s.cur.(points := [], packets := 0, droppedPackets := 0))
  }

  function WithPolicy(s: State, policy: FramePolicy): State {
    s.(policy := policy, fallback := false, frameCntChangedEver := false, firstTime := None)
  }

  function Rebased(s: State): State {
    s.(mapper := MapperState(s.mapper.policy, None, false), drops := s.drops.(have := false))
  }

  // ---------------------------------------------------------------------------
  // The class
  // ---------------------------------------------------------------------------

  class FrameAssembler {
    var policy: FramePolicy
    const time: TimeMapper
    const drops: DropCounter
    var counters: Counters
    var cur: Frame
    var nextIndex: U32
    var havePrev: bool
    var prevFrameCnt: Byte
    var prevDataType: DataType
    var frameCntChangedEver: bool
    var fallback: bool
    var firstTime: Option<nat>
    var windowStart: nat

    constructor (policy: FramePolicy, timestamps: TimestampPolicy)
      ensures View() == Fresh(policy, timestamps)
      ensures fresh(time) && fresh(drops)
    {
      this.policy := policy;
      time := new TimeMapper(timestamps);
      drops := new DropCounter();
      counters := Counters(0, 0, 0, 0, 0, 0, 0);
      cur := EMPTY_FRAME;
      nextIndex, havePrev, prevFrameCnt, prevDataType := 0, false, 0, Imu;
      frameCntChangedEver, fallback, firstTime, windowStart := false, false, None, 0;
    }

    function View(): State
      reads this, time, drops
    {
      State(
        policy, time.View(), drops.View(), counters, cur, nextIndex, havePrev, prevFrameCnt,
        prevDataType, frameCntChangedEver, fallback, firstTime, windowStart)
    }

    method SetPolicy(policy: FramePolicy)
      modifies this
      ensures View() == WithPolicy(old(View()), policy)
    {
      this.policy := policy;
      fallback := false;
      frameCntChangedEver := false;
      firstTime := None;
    }

    method TakeFrame() returns (out: Frame)
      modifies this
      ensures (View(), out) == Taken(old(View()))
    {
      out := cur.(index := nextIndex);
      nextIndex := (nextIndex + 1) % 0x1_0000_0000;
      counters := counters.(frames := counters.frames + 1);
      cur := EMPTY_FRAME;
    }

    method Discard()
      modifies this
      ensures View() == DiscardedPartial(old(View()))
    {
      counters := counters.(points := counters.points - |cur.points|);
      cur := cur.(points := [], packets := 0, droppedPackets := 0);
    }

    method Flush() returns (out: Option<Frame>)
      modifies this
      ensures (View(), out) == Flushed(old(View()))
    {
      if cur.points == [] { return None; }
      var f := TakeFrame();
      return Some(f);
    }

    method Rebase()
      modifies time, drops
      ensures View() == Rebased(old(View()))
    {
      time.Reset();
      drops.Reset();
    }

    /** Appends the points of one packet to the open frame. */
    method Append(p: Packet, t0: nat)
      modifies this`cur
      ensures cur == old(cur).(
        points := old(cur.points) + PointsOf(p, p.header.dotNum, t0, old(cur.baseTimeNs)),
        endTimeNs := LatestNs(p, p.header.dotNum, t0, old(cur.endTimeNs)))
    {
      hide SampleDelta, RawSample;
      for i := 0 to p.header.dotNum
        invariant cur == old(cur).(
          points := old(cur.points) + PointsOf(p, i, t0, old(cur.baseTimeNs)),
          endTimeNs := LatestNs(p, i, t0, old(cur.endTimeNs)))
      {
        var ts := t0 + SampleDelta(p.header, i);
        var off := if ts >= cur.baseTimeNs then ts - cur.baseTimeNs else 0;
        var point := Point(p.header.dataType, RawSample(p, i), i % 4, if off <= OFFSET_MAX then off else OFFSET_MAX);
        cur := cur.(points := cur.points + [point],
                    endTimeNs := if ts > cur.endTimeNs then ts else cur.endTimeNs);
      }
    }

    /** push(): feeds one parsed packet and returns the frame it closed, if any. */
    method Push(p: Packet, recvNs: U64) returns (out: Option<Frame>)
      modifies this, time, drops
      ensures (View(), out) == Pushed(old(View()), p, recvNs)
    {
      var h := p.header;
      if h.dataType == Imu || h.dotNum == 0 { return None; }
      ghost var before := View();

      var t0 := time.Map(h, recvNs);
      var changed := havePrev && h.frameCnt != prevFrameCnt;
      var drop := drops.Observe(h.udpCnt, changed);
      if drop.dropped == 1 && havePrev && h.dataType != prevDataType {
        drop := drop.(dropped := 0);
        counters := counters.(typeSwitchGaps := counters.typeSwitchGaps + 1);
      }
      counters := counters.(
        droppedPackets := counters.droppedPackets + drop.dropped,
        reordered := counters.reordered + if drop.reordered then 1 else 0);
      assert View() == Registered(before, h, recvNs) && drop == Drop(before, h);
      if drop.reordered && changed && !(policy.mode == TimeWindow || fallback) { return None; }
      out := Join(p, t0, changed, drop.dropped);
    }

    /** The second half of push(), for a packet that is not suppressed as late. */
    method Join(p: Packet, t0: nat, changed: bool, dropped: nat) returns (out: Option<Frame>)
      modifies this
      ensures (View(), out) == Accepted(old(View()), p, t0, changed, dropped)
    {
      Watch(t0, changed);
      var close, onGrid := Decide(p.header, t0, changed);
      out := None;
      if close {
        var f := TakeFrame();
        out := Some(f);
      }
      if cur.points == [] { Start(p.header, t0, onGrid); }
      Fill(p, t0, dropped);
    }

    /** push(): the points of the packet join the open frame. */
    method Fill(p: Packet, t0: nat, dropped: nat)
      modifies this
      ensures View() == Appended(old(View()), p, t0, dropped)
    {
      Append(p, t0);
      cur := cur.(droppedPackets := cur.droppedPackets + dropped, packets := cur.packets + 1);
      counters := counters.(packets := counters.packets + 1, points := counters.points + p.header.dotNum);
      havePrev := true;
      prevFrameCnt := p.header.frameCnt;
      prevDataType := p.header.dataType;
    }

    /** push(): the fallback of kFrameCounter to the time window. */
    method Watch(t0: nat, changed: bool)
      modifies this
      ensures View() == Watched(old(View()), changed, t0)
    {
      var window := if policy.windowNs >= 1 then policy.windowNs else 1;
      if firstTime.None? || t0 < firstTime.value {
        firstTime := Some(t0);
      }
      if policy.mode == FrameCounter && !fallback {
        if changed {
          frameCntChangedEver := true;
        } else if !frameCntChangedEver && t0 >= firstTime.value + 2 * window {
          fallback := true;
          counters := counters.(frameCntFallback := counters.frameCntFallback + 1);
        }
      }
    }

    /** push(): whether the packet closes the open frame and whether the grid goes on. */
    method Decide(h: PacketHeader, t0: nat, changed: bool) returns (close: bool, onGrid: bool)
      ensures close == Closes(View(), h, changed, t0)
      ensures onGrid == StaysOnGrid(View(), h, t0)
    {
      close, onGrid := false, false;
      if cur.points != [] {
        var window := if policy.windowNs >= 1 then policy.windowNs else 1;
        close := changed;
        if policy.mode == TimeWindow || fallback {
          close := t0 >= windowStart + window;
          onGrid := close;
        }
        if h.dataType != cur.sourceType {
          close, onGrid := true, false;
        }
        if h.timeType != cur.timeType {
          close, onGrid := true, false;
        }
        if t0 + window <= cur.baseTimeNs {
          close, onGrid := true, false;
        }
        if t0 >= cur.baseTimeNs && t0 - cur.baseTimeNs + h.timeInterval * 100 > OFFSET_MAX {
          close, onGrid := true, false;
        }
      }
    }

    /** push(): the first packet of a frame. */
    method Start(h: PacketHeader, t0: nat, onGrid: bool)
      requires onGrid ==> windowStart <= t0
      modifies this
      ensures View() == Opened(old(View()), h, t0, onGrid)
    {
      var window := if policy.windowNs >= 1 then policy.windowNs else 1;
      windowStart := if onGrid then GridStart(windowStart, window, t0) else t0;
      cur := cur.(baseTimeNs := t0, endTimeNs := t0, frameCnt := h.frameCnt,
                  sourceType := h.dataType, timeType := h.timeType);
    }
  }
}
