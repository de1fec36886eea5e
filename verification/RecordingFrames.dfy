/** The frames of a recording in terms of its time line, and what each call to write() comes to. */
module RecordingFrames {
  import opened Bytes
  import opened Lvx2Format
  import opened Lvx2Writer
  import opened Packets
  import opened Recording
  import opened RecordingTime
  import opened Seqs
  import opened Wrappers

  // ---------------------------------------------------------------------------
  // Frames by the clock
  // ---------------------------------------------------------------------------

  /** Frame number `slot` is `durationNs` long and begins that many durations after 0; earlier times are in 0. */
  predicate Within(timeNs: int, slot: nat, durationNs: nat) {
    if timeNs <= 0 then slot == 0 else slot * durationNs <= timeNs < (slot + 1) * durationNs
  }

  /** The first package lies within the frame, and no package after it. */
  ghost predicate HoldsItsTimes(g: Group, durationNs: nat) {
    && |g.packages| == |g.times| > 0
    && Within(g.times[0], g.slot, durationNs)
    && forall k :: 0 <= k < |g.times| ==> g.times[k] < (g.slot + 1) * durationNs
  }

  lemma GroupHoldsItsTimes(g: Group, durationNs: nat)
    requires durationNs > 0 && InSlot(g, durationNs)
    ensures HoldsItsTimes(g, durationNs)
  {
    hide Slot;
    SlotHoldsTime(g.times[0], durationNs);
    forall k | 0 <= k < |g.times| ensures g.times[k] < (g.slot + 1) * durationNs {
      PastSlot(g.times[k], g.slot, durationNs);
    }
  }

  /**
    Every recording: the frames are at strictly later and later multiples of the frame duration, each
    begins with a package of that time and holds none of a later frame's, and the last one is where the
    newest recording time is.
  */
  lemma FramesHoldTheirTimes(convert: Converter, devices: seq<Device>, durationMs: U32, writes: seq<Write>)
    requires 0 < |devices| < 256 && durationMs > 0
    ensures var t, d := Run(convert, devices, durationMs, writes), durationMs * 1_000_000;
            && (forall k :: 0 <= k < |t.groups| ==> HoldsItsTimes(t.groups[k], d))
            && (forall j, k :: 0 <= j < k < |t.groups| ==> t.groups[j].slot < t.groups[k].slot)
            && (t.groups != [] ==> Within(t.writer.line.latestNs, Last(t.groups).slot, d))
  {
    hide Run, Slot, InSlot, HoldsItsTimes;
    FramesMoveForward(convert, devices, durationMs, writes);
    var t, d := Run(convert, devices, durationMs, writes), durationMs * 1_000_000;
    forall k | 0 <= k < |t.groups| ensures HoldsItsTimes(t.groups[k], d) {
      GroupHoldsItsTimes(t.groups[k], d);
    }
    SlotHoldsTime(t.writer.line.latestNs, d);
  }

  /** One more recorded package joins the frames at its slot. */
  lemma OneMoreWrite(convert: Converter, devices: seq<Device>, durationMs: U32, writes: seq<Write>, w: Write)
    requires 0 < |devices| < 256 && durationMs > 0
    requires PackageFor(convert, IdsOf(devices), w).Some?
    ensures var t, next := Run(convert, devices, durationMs, writes), Run(convert, devices, durationMs, writes + [w]);
            && w.device < |devices| == |t.writer.line.clocks|
            && var timeNs := TimeOf(t.writer.line, w.device, w.packet.header.timestampNs);
            next.groups == Grouped(t.groups, Slot(timeNs, durationMs * 1_000_000),
                                   PackageFor(convert, IdsOf(devices), w).value, timeNs)
  {
    hide Slot, TimeOf, Recorded, Keeps, Written, Grouped;
    RunIsOpen(convert, devices, durationMs, writes);
    Without(writes, w);
  }

  /** The last package and its time, after one more package. */
  lemma LastOfGrouped(groups: seq<Group>, slot: nat, p: Package, timeNs: int)
    ensures var r := Grouped(groups, slot, p, timeNs);
            && Last(r).packages != [] && Last(r).packages[|Last(r).packages| - 1] == p
            && Last(r).times != [] && Last(r).times[|Last(r).times| - 1] == timeNs
            && |r| == if groups == [] || slot > Last(groups).slot then |groups| + 1 else |groups|
  {
  }

  /**
    Every recording: a recorded package begins a new frame exactly if it is the first one or its time is
    not before the end of the last frame. It is the last package of the last frame, at its own time.
  */
  lemma NewFrameExactly(convert: Converter, devices: seq<Device>, durationMs: U32, writes: seq<Write>, w: Write)
    requires 0 < |devices| < 256 && durationMs > 0
    requires PackageFor(convert, IdsOf(devices), w).Some?
    ensures var t, next := Run(convert, devices, durationMs, writes), Run(convert, devices, durationMs, writes + [w]);
            && w.device < |devices| == |t.writer.line.clocks|
            && var timeNs := TimeOf(t.writer.line, w.device, w.packet.header.timestampNs);
            && |next.groups| == |t.groups| +
               (if t.groups == [] || timeNs >= (Last(t.groups).slot + 1) * (durationMs * 1_000_000) then 1 else 0)
            && next.groups != []
            && var last := Last(next.groups);
            && last.packages != [] && last.times != [] && last.times[|last.times| - 1] == timeNs
            && last.packages[|last.packages| - 1] == PackageFor(convert, IdsOf(devices), w).value
  {
    hide Slot, TimeOf, PackageFor, IdsOf, Run, Grouped;
    OneMoreWrite(convert, devices, durationMs, writes, w);
    var t, d := Run(convert, devices, durationMs, writes), durationMs * 1_000_000;
    var timeNs := TimeOf(t.writer.line, w.device, w.packet.header.timestampNs);
    LastOfGrouped(t.groups, Slot(timeNs, d), PackageFor(convert, IdsOf(devices), w).value, timeNs);
    if t.groups != [] { PastSlot(timeNs, Last(t.groups).slot, d); }
  }

  // ---------------------------------------------------------------------------
  // What is recorded
  // ---------------------------------------------------------------------------

  /** The part of the points that sample `i` is converted to. */
  lemma {:induction false} ConvertedSample(convert: Converter, data: seq<Byte>, n: nat, i: nat)
    requires 10 * n <= |data| && i < n
    ensures Converted(convert, data, n)[14 * i..14 * i + 14] == convert(data[10 * i..10 * i + 10])
  {
    if i < n - 1 {
      ConvertedSample(convert, data, n - 1, i);
      assert Converted(convert, data, n)[14 * i..14 * i + 14]
        == Converted(convert, data, n - 1)[14 * i..14 * i + 14];
    }
  }

  /** Every packet but an IMU packet is recorded, Cartesian points as they are and spherical ones converted. */
  lemma RecordedExactly(convert: Converter, p: Packet, i: nat)
    ensures Recorded(convert, p).None? <==> p.header.dataType == Imu
    ensures p.header.dataType == Cartesian32 || p.header.dataType == Cartesian16 ==>
              Recorded(convert, p) == Some((p.header.dataType, p.data))
    ensures p.header.dataType == Spherical ==>
              var (dataType, points) := Recorded(convert, p).value;
              && dataType == Cartesian32 && |points| == 14 * p.header.dotNum
              && (i < p.header.dotNum ==> points[14 * i..14 * i + 14] == convert(p.data[10 * i..10 * i + 10]))
  {
    if p.header.dataType == Spherical && i < p.header.dotNum {
      ConvertedSample(convert, p.data, p.header.dotNum, i);
    }
  }

  /** The writes of a device of the recording, and among them the IMU packets. */
  function Listed(devices: nat, writes: seq<Write>, imu: bool): (n: nat) {
    if writes == [] then 0
    else
      var before, w := Listed(devices, writes[..|writes| - 1], imu), writes[|writes| - 1];
      if w.device < devices && (w.packet.header.dataType == Imu) == imu then before + 1 else before
  }

  /**
    Every recording: each write of one of its devices is recorded or, for an IMU packet, ignored, and the
    statistics count both; a write of another device is refused. The result says which it is.
  */
  lemma {:induction false} EveryWriteIsCounted(
    convert: Converter, devices: seq<Device>, durationMs: U32, writes: seq<Write>)
    requires 0 < |devices| < 256 && durationMs > 0
    ensures var stats := Run(convert, devices, durationMs, writes).writer.stats;
            && stats.packets == Listed(|devices|, writes, false)
            && stats.ignored == Listed(|devices|, writes, true)
  {
    hide TimeOf, Slot, Placed, Converted, Grouped, FileHead, Keeps;
    if writes != [] {
      var n := |writes| - 1;
      EveryWriteIsCounted(convert, devices, durationMs, writes[..n]);
      RunIsOpen(convert, devices, durationMs, writes[..n]);
    }
  }

  lemma WriteOutcome(convert: Converter, devices: seq<Device>, durationMs: U32, writes: seq<Write>, w: Write)
    requires 0 < |devices| < 256 && durationMs > 0
    ensures var s := Run(convert, devices, durationMs, writes).writer;
            && Written(convert, s, w.device, w.packet).1
               == (if w.device >= |devices| then Err(DeviceIndex) else Ok(w.packet.header.dataType != Imu))
            && (Written(convert, s, w.device, w.packet).1.Err? ==> Written(convert, s, w.device, w.packet).0 == s)
            && Written(convert, Closed(s), w.device, w.packet) == (Closed(s), Err(NotOpen))
            && Opened(s, devices, durationMs) == Err(AlreadyOpen)
  {
    hide Run, Appended, Converted;
    RunIsOpen(convert, devices, durationMs, writes);
  }

  /** Opening succeeds exactly for a closed writer, 1 to 255 devices and a duration. */
  lemma OpensExactly(w: WriterState, devices: seq<Device>, durationMs: U32)
    ensures Opened(w, devices, durationMs).Ok? <==> !w.isOpen && 0 < |devices| < 256 && durationMs > 0
    ensures Opened(w, devices, durationMs).Ok? ==>
              Opened(w, devices, durationMs).value == Begun(devices, durationMs).writer
  {
    hide FileHead;
  }
}
