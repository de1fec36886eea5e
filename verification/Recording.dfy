/**
  What a run of the lvx2 writer leaves in the file: the packages it was given, in order, in frames
  that follow the recording's time line.
*/
module Recording {
  import opened Bytes
  import opened Lvx2Format
  import opened Lvx2Writer
  import opened Packets
  import opened RecordingTime
  import opened Seqs
  import opened Wrappers

  /** One frame of the recording: its slot, and its packages with their recording times. */
  datatype Group = Group(slot: nat, packages: seq<Package>, times: seq<int>)

  /** The writer with the frames it was given so far; the last one is still open. */
  datatype Trace = Trace(writer: WriterState, groups: seq<Group>)

  datatype Write = Write(device: nat, packet: RawPacket)

  function FramesOf(groups: seq<Group>): (frames: seq<seq<Package>>)
    ensures |frames| == |groups|
  {
    if groups == [] then [] else FramesOf(groups[..|groups| - 1]) + [groups[|groups| - 1].packages]
  }

  function Last(groups: seq<Group>): (g: Group)
    requires groups != []
  {
    groups[|groups| - 1]
  }

  /** Frames only move forward: a package opens a frame when its slot is past the open one's. */
  function Grouped(groups: seq<Group>, slot: nat, p: Package, timeNs: int): (r: seq<Group>)
    ensures r != []
  {
    if groups == [] || slot > Last(groups).slot then groups + [Group(slot, [p], [timeNs])]
    else
      var g := Last(groups);
      groups[..|groups| - 1] + [Group(g.slot, g.packages + [p], g.times + [timeNs])]
  }

  /** The package a call to write() records, if any. */
  function PackageFor(convert: Converter, lidarIds: seq<U32>, w: Write): (p: Option<Package>) {
    if w.device >= |lidarIds| then None
    else
      match Recorded(convert, w.packet)
      case None => None
      case Some(rec) => Some(PackageOf(lidarIds[w.device], w.packet.header, rec))
  }

  function Stepped(convert: Converter, t: Trace, w: Write): (r: Trace)
    requires Valid(t.writer)
    ensures Valid(r.writer)
  {
    var package := PackageFor(convert, t.writer.lidarIds, w);
    Trace(Written(convert, t.writer, w.device, w.packet).0,
          if package.None? || !t.writer.isOpen then t.groups
          else
            var timeNs := TimeOf(t.writer.line, w.device, w.packet.header.timestampNs);
            Grouped(t.groups, Slot(timeNs, DurationNs(t.writer)), package.value, timeNs))
  }

  /** Whatever writer was closed before, a recording starts from the same state. */
  function Begun(devices: seq<Device>, durationMs: U32): (t: Trace)
    requires 0 < |devices| < 256 && durationMs > 0
    ensures Valid(t.writer)
  {
    Trace(Opened(CLOSED, devices, durationMs).value, [])
  }

  function Run(convert: Converter, devices: seq<Device>, durationMs: U32, writes: seq<Write>): (t: Trace)
    requires 0 < |devices| < 256 && durationMs > 0
    ensures Valid(t.writer)
  {
    if writes == [] then Begun(devices, durationMs)
    else
      var n := |writes| - 1;
      Stepped(convert, Run(convert, devices, durationMs, writes[..n]), writes[n])
  }

  // ---------------------------------------------------------------------------
  // Bytes
  // ---------------------------------------------------------------------------

  /** The file holds every frame but the open one, whose packages are in the buffer. */
  ghost predicate OnDisk(head: seq<Byte>, t: Trace) {
    var w, n := t.writer, |t.groups|;
    && w.offset == |w.file| == w.stats.bytes
    && w.frameIndex == w.stats.frames
    && if n == 0 then w.file == head && w.frame == [] && w.frameSlot == None && w.frameIndex == 0
       else
         && w.file == head + Chain(|head|, FramesOf(t.groups[..n - 1]))
         && w.frameIndex == n - 1
         && w.frame == Body(Last(t.groups).packages) != []
         && w.frameSlot == Some(Last(t.groups).slot)
  }

  lemma BodyGrows(packages: seq<Package>, p: Package)
    ensures Body(packages + [p]) == Body(packages) + PackageBytes(p) != []
  {
    hide PackageBytes;
    Without(packages, p);
    assert |PackageBytes(p)| >= PACKAGE_HEADER_SIZE;
  }

  lemma ChainGrows(start: nat, groups: seq<Group>, before: seq<Byte>, offset: nat)
    requires groups != []
    requires before == Chain(start, FramesOf(groups[..|groups| - 1])) && offset == start + |before|
    ensures Chain(start, FramesOf(groups)) == before + FrameBytes(offset, |groups| - 1, Last(groups).packages)
  {
    hide FrameBytes;
    var n := |groups| - 1;
    Without(FramesOf(groups[..n]), groups[n].packages);
  }

  /** The frame after the frames on disk completes the chain. */
  lemma CompletesChain(head: seq<Byte>, groups: seq<Group>, file: seq<Byte>, before: seq<Byte>)
    requires groups != [] && before == Chain(|head|, FramesOf(groups[..|groups| - 1])) && file == head + before
    ensures var body := Body(Last(groups).packages);
            file + FrameHead(|file|, |body|, |groups| - 1) + body == head + Chain(|head|, FramesOf(groups))
  {
    hide FrameHead, Body, Chain, FramesOf;
    var n, packages := |groups| - 1, Last(groups).packages;
    ChainGrows(|head|, groups, before, |file|);
    FourParts(head, before, FrameHead(|file|, |Body(packages)|, n), Body(packages));
  }

  lemma FourParts(a: seq<Byte>, b: seq<Byte>, c: seq<Byte>, d: seq<Byte>)
    ensures a + b + c + d == a + (b + (c + d))
  {
  }

  /** Flushing the open frame completes the chain. */
  lemma FlushCompletesChain(head: seq<Byte>, t: Trace)
    requires OnDisk(head, t) && t.groups != []
    ensures FrameFlushed(t.writer).file == head + Chain(|head|, FramesOf(t.groups))
    ensures FrameFlushed(t.writer).offset == |FrameFlushed(t.writer).file| == FrameFlushed(t.writer).stats.bytes
  {
    hide FrameHead;
    var n := |t.groups| - 1;
    CompletesChain(head, t.groups, t.writer.file, Chain(|head|, FramesOf(t.groups[..n])));
  }

  lemma AppendKeepsDisk(head: seq<Byte>, t: Trace, p: Package, line: Line, slot: nat, timeNs: int)
    requires OnDisk(head, t)
    ensures OnDisk(head, Trace(Appended(t.writer, p, line, slot), Grouped(t.groups, slot, p, timeNs)))
  {
    hide PackageBytes, FrameHead, Body, Chain, FramesOf;
    BodyGrows([], p);
    assert Body([]) == [] by { BodyOfNone(); }
    assert [] + [p] == [p] && [] + PackageBytes(p) == PackageBytes(p);
    if t.groups == [] {
      ChainOfNone(|head|);
      assert head + [] == head;
    } else if slot > Last(t.groups).slot {
      FlushCompletesChain(head, t);
      Without(t.groups, Group(slot, [p], [timeNs]));
    } else {
      var g := Last(t.groups);
      BodyGrows(g.packages, p);
      Without(t.groups[..|t.groups| - 1], Group(g.slot, g.packages + [p], g.times + [timeNs]));
    }
  }

  lemma BodyOfNone()
    ensures Body([]) == []
  {
  }

  lemma ChainOfNone(start: nat)
    ensures Chain(start, FramesOf([])) == []
  {
  }

  // ---------------------------------------------------------------------------
  // Frames and the time line
  // ---------------------------------------------------------------------------

  /** A frame starts with the package whose slot it is and holds nothing of a later slot. */
  ghost predicate InSlot(g: Group, durationNs: nat)
    requires durationNs > 0
  {
    && |g.packages| == |g.times| > 0
    && g.slot == Slot(g.times[0], durationNs)
    && forall k :: 0 <= k < |g.times| ==> Slot(g.times[k], durationNs) <= g.slot
  }

  ghost predicate Forward(groups: seq<Group>, durationNs: nat)
    requires durationNs > 0
  {
    && (forall k :: 0 <= k < |groups| ==> InSlot(groups[k], durationNs))
    && (forall j, k :: 0 <= j < k < |groups| ==> groups[j].slot < groups[k].slot)
  }

  /** The open frame is the one of the newest recording time. */
  ghost predicate OnTime(t: Trace, durationNs: nat)
    requires durationNs > 0
  {
    && Forward(t.groups, durationNs)
    && (t.groups == [] ==> t.writer.line.latestNs == 0)
    && (t.groups != [] ==> Last(t.groups).slot == Slot(t.writer.line.latestNs, durationNs))
  }

  lemma GroupedIsForward(groups: seq<Group>, durationNs: nat, p: Package, timeNs: int)
    requires durationNs > 0 && Forward(groups, durationNs)
    ensures Forward(Grouped(groups, Slot(timeNs, durationNs), p, timeNs), durationNs)
  {
    hide Slot;
    var slot := Slot(timeNs, durationNs);
    if groups != [] && slot <= Last(groups).slot {
      var g := Last(groups);
      assert InSlot(g, durationNs);
      var g' := Group(g.slot, g.packages + [p], g.times + [timeNs]);
      assert g'.times[0] == g.times[0];
      assert InSlot(g', durationNs);
    } else {
      assert InSlot(Group(slot, [p], [timeNs]), durationNs);
    }
  }

  lemma GroupedIsOnTime(groups: seq<Group>, latestNs: nat, durationNs: nat, p: Package, timeNs: int)
    requires durationNs > 0
    requires groups == [] ==> latestNs == 0
    requires groups != [] ==> Last(groups).slot == Slot(latestNs, durationNs)
    ensures Last(Grouped(groups, Slot(timeNs, durationNs), p, timeNs)).slot
            == Slot(Max(latestNs, timeNs), durationNs)
  {
    if timeNs <= latestNs {
      SlotMonotone(timeNs, latestNs, durationNs);
    } else {
      SlotMonotone(latestNs, timeNs, durationNs);
    }
  }

  // ---------------------------------------------------------------------------
  // Runs
  // ---------------------------------------------------------------------------

  /** The packages of the writes, in order. */
  function PackagesFor(convert: Converter, lidarIds: seq<U32>, writes: seq<Write>): (r: seq<Package>) {
    if writes == [] then []
    else
      var n := |writes| - 1;
      var before := PackagesFor(convert, lidarIds, writes[..n]);
      match PackageFor(convert, lidarIds, writes[n])
      case None => before
      case Some(p) => before + [p]
  }

  function Flat(frames: seq<seq<Package>>): (r: seq<Package>) {
    if frames == [] then [] else Flat(frames[..|frames| - 1]) + frames[|frames| - 1]
  }

  lemma FlatGrows(groups: seq<Group>, slot: nat, p: Package, timeNs: int)
    ensures Flat(FramesOf(Grouped(groups, slot, p, timeNs))) == Flat(FramesOf(groups)) + [p]
  {
    var r := Grouped(groups, slot, p, timeNs);
    var n := |r| - 1;
    Without(FramesOf(r[..n]), r[n].packages);
    if groups == [] || slot > Last(groups).slot {
      Without(groups, r[n]);
    } else {
      Without(groups[..n], r[n]);
      Without(FramesOf(groups[..n]), groups[n].packages);
      Assoc(Flat(FramesOf(groups[..n])), groups[n].packages, [p]);
    }
  }

  /** What every call to write() keeps. */
  ghost predicate Keeps(convert: Converter, devices: seq<Device>, durationMs: U32, writes: seq<Write>, t: Trace)
    requires 0 < |devices| < 256 && durationMs > 0
  {
    && t.writer.isOpen && t.writer.lidarIds == IdsOf(devices) && t.writer.durationMs == durationMs
    && OnDisk(FileHead(devices, durationMs), t)
    && OnTime(t, durationMs * 1_000_000)
    && Flat(FramesOf(t.groups)) == PackagesFor(convert, IdsOf(devices), writes)
    && t.writer.stats.packets == |PackagesFor(convert, IdsOf(devices), writes)|
  }

  lemma AppendedFields(w: WriterState, p: Package, line: Line, slot: nat)
    ensures var r := Appended(w, p, line, slot);
            && r.isOpen == w.isOpen && r.lidarIds == w.lidarIds && r.durationMs == w.durationMs
            && r.line == line && r.stats.packets == w.stats.packets + 1
  {
  }

  lemma StepKeeps(convert: Converter, devices: seq<Device>, durationMs: U32, writes: seq<Write>, t: Trace, w: Write)
    requires 0 < |devices| < 256 && durationMs > 0
    requires Valid(t.writer) && Keeps(convert, devices, durationMs, writes, t)
    ensures Keeps(convert, devices, durationMs, writes + [w], Stepped(convert, t, w))
  {
    hide Appended, Grouped, TimeOf, Slot, Recorded, Forward, OnDisk, FileHead, FramesOf, Flat;
    Without(writes, w);
    var package := PackageFor(convert, t.writer.lidarIds, w);
    if package.Some? {
      var line, ts := t.writer.line, w.packet.header.timestampNs;
      var timeNs := TimeOf(line, w.device, ts);
      var slot := Slot(timeNs, durationMs * 1_000_000);
      AppendKeepsDisk(FileHead(devices, durationMs), t, package.value, Placed(line, w.device, ts), slot, timeNs);
      AppendedFields(t.writer, package.value, Placed(line, w.device, ts), slot);
      GroupedIsForward(t.groups, durationMs * 1_000_000, package.value, timeNs);
      GroupedIsOnTime(t.groups, line.latestNs, durationMs * 1_000_000, package.value, timeNs);
      FlatGrows(t.groups, slot, package.value, timeNs);
    } else {
      IgnoredKeepsDisk(FileHead(devices, durationMs), t, Stepped(convert, t, w));
    }
  }

  lemma IgnoredKeepsDisk(head: seq<Byte>, t: Trace, r: Trace)
    requires OnDisk(head, t)
    requires r.groups == t.groups
    requires r.writer == t.writer.(stats := t.writer.stats.(ignored := r.writer.stats.ignored))
    ensures OnDisk(head, r)
  {
  }

  lemma BegunKeeps(convert: Converter, devices: seq<Device>, durationMs: U32)
    requires 0 < |devices| < 256 && durationMs > 0
    ensures Keeps(convert, devices, durationMs, [], Begun(devices, durationMs))
  {
    hide FileHead, IdsOf;
  }

  lemma {:induction false} RunKeeps(convert: Converter, devices: seq<Device>, durationMs: U32, writes: seq<Write>)
    requires 0 < |devices| < 256 && durationMs > 0
    ensures Keeps(convert, devices, durationMs, writes, Run(convert, devices, durationMs, writes))
  {
    hide Keeps, Stepped, Begun;
    if writes == [] {
      BegunKeeps(convert, devices, durationMs);
    } else {
      var n := |writes| - 1;
      RunKeeps(convert, devices, durationMs, writes[..n]);
      assert writes[..n] + [writes[n]] == writes;
      StepKeeps(convert, devices, durationMs, writes[..n], Run(convert, devices, durationMs, writes[..n]), writes[n]);
    }
  }

  /**
    Every recording: the closed file is a well-formed chain of frames that holds exactly the
    recorded packages, each once and in order; the statistics count what it holds.
  */
  lemma FileHoldsThePackages(convert: Converter, devices: seq<Device>, durationMs: U32, writes: seq<Write>)
    requires 0 < |devices| < 256 && durationMs > 0
    ensures var t := Run(convert, devices, durationMs, writes);
            && Closed(t.writer).file == FileBytes(durationMs, devices, FramesOf(t.groups))
            && Flat(FramesOf(t.groups)) == PackagesFor(convert, IdsOf(devices), writes)
            && Closed(t.writer).stats.packets == |PackagesFor(convert, IdsOf(devices), writes)|
            && Closed(t.writer).stats.frames == |t.groups|
            && Closed(t.writer).stats.bytes == |Closed(t.writer).file|
  {
    hide Run, Chain, FrameHead, FileHeader, DeviceBlock, FramesOf, Flat, PackagesFor, OnTime, Body;
    RunKeeps(convert, devices, durationMs, writes);
    var t, head := Run(convert, devices, durationMs, writes), FileHead(devices, durationMs);
    ChainOfNone(|head|);
    if t.groups != [] {
      FlushCompletesChain(head, t);
    }
    Assoc(FileHeader(durationMs, |devices|), DeviceBlock(devices), Chain(|head|, FramesOf(t.groups)));
  }

  /**
    Every recording: the frames' slots increase strictly, each frame starts with a package of its
    slot and holds no package of a later one, and the open frame is that of the newest time.
  */
  lemma FramesMoveForward(convert: Converter, devices: seq<Device>, durationMs: U32, writes: seq<Write>)
    requires 0 < |devices| < 256 && durationMs > 0
    ensures OnTime(Run(convert, devices, durationMs, writes), durationMs * 1_000_000)
  {
    hide Run;
    RunKeeps(convert, devices, durationMs, writes);
  }

  /** The recorded packages as the time line sees them. */
  function TicksFor(convert: Converter, lidarIds: seq<U32>, writes: seq<Write>): (r: seq<Tick>)
    ensures Of(r, |lidarIds|) && |r| <= |writes|
  {
    if writes == [] then []
    else
      var n := |writes| - 1;
      var before := TicksFor(convert, lidarIds, writes[..n]);
      if PackageFor(convert, lidarIds, writes[n]).None? then before
      else before + [Tick(writes[n].device, writes[n].packet.header.timestampNs)]
  }

  lemma {:induction false} LineFollowsTicks(
    convert: Converter, devices: seq<Device>, durationMs: U32, writes: seq<Write>)
    requires 0 < |devices| < 256 && durationMs > 0
    ensures Run(convert, devices, durationMs, writes).writer.line
            == LineAfter(|devices|, TicksFor(convert, IdsOf(devices), writes))
  {
    hide Recorded, FileHead, IdsOf, Placed, Appended, Grouped, Keeps;
    if writes != [] {
      var n := |writes| - 1;
      LineFollowsTicks(convert, devices, durationMs, writes[..n]);
      RunIsOpen(convert, devices, durationMs, writes[..n]);
      var t, w := Run(convert, devices, durationMs, writes[..n]), writes[n];
      var package := PackageFor(convert, t.writer.lidarIds, w);
      if package.Some? {
        var line, ts := t.writer.line, w.packet.header.timestampNs;
        AppendedFields(t.writer, package.value, Placed(line, w.device, ts),
                       Slot(TimeOf(line, w.device, ts), DurationNs(t.writer)));
        Without(TicksFor(convert, IdsOf(devices), writes[..n]), Tick(w.device, ts));
      }
    }
  }

  lemma RunIsOpen(convert: Converter, devices: seq<Device>, durationMs: U32, writes: seq<Write>)
    requires 0 < |devices| < 256 && durationMs > 0
    ensures var w := Run(convert, devices, durationMs, writes).writer;
            w.isOpen && w.lidarIds == IdsOf(devices) && w.durationMs == durationMs
  {
    hide Run, IdsOf;
    RunKeeps(convert, devices, durationMs, writes);
  }

  /**
    Every recording: as long as all positions so far are int64_t nanoseconds (in any recording of up
    to nine billion packages), the time the writer files the next package at is its position on the
    ideal time line exactly if that is one too.
  */
  lemma RecordedTimesAreExact(
    convert: Converter, devices: seq<Device>, durationMs: U32, writes: seq<Write>, w: Write)
    requires 0 < |devices| < 256 && durationMs > 0 && w.device < |devices|
    requires Fits(|devices|, TicksFor(convert, IdsOf(devices), writes))
    ensures var line := Run(convert, devices, durationMs, writes).writer.line;
            var ideal := IdealAfter(|devices|, TicksFor(convert, IdsOf(devices), writes));
            var ts := w.packet.header.timestampNs;
            && |line.clocks| == |devices| && line.latestNs == ideal.latestNs
            && (TimeOf(line, w.device, ts) == Position(ideal, w.device, ts) <==> InRange(Position(ideal, w.device, ts)))
  {
    hide Run, TimeOf, Position, IdsOf, TicksFor, LineAfter, IdealAfter, Fits, InRange;
    LineFollowsTicks(convert, devices, durationMs, writes);
    var ticks := TicksFor(convert, IdsOf(devices), writes);
    TimeLineIsExact(|devices|, ticks);
    TimeIsPosition(LineAfter(|devices|, ticks), IdealAfter(|devices|, ticks), w.device, w.packet.header.timestampNs);
  }

  /**
    Every recording, whatever the devices' clocks do: a call to write() never moves the newest time
    back, and moves it ahead by more than a clock jump exactly if the package wraps past it.
  */
  lemma RecordedNewestTimeMoves(
    convert: Converter, devices: seq<Device>, durationMs: U32, writes: seq<Write>, w: Write)
    requires 0 < |devices| < 256 && durationMs > 0
    ensures var line := Run(convert, devices, durationMs, writes).writer.line;
            var after := Run(convert, devices, durationMs, writes + [w]).writer.line.latestNs;
            && |line.clocks| == |devices|
            && line.latestNs <= after
            && (after > line.latestNs + CLOCK_JUMP_NS
                <==> && PackageFor(convert, IdsOf(devices), w).Some?
                     && WrapsAhead(line.clocks[w.device], line.latestNs, w.packet.header.timestampNs))
  {
    hide Run, IdsOf, LineAfter, WrapsAhead, Placed, Recorded;
    LineFollowsTicks(convert, devices, durationMs, writes);
    LineFollowsTicks(convert, devices, durationMs, writes + [w]);
    var ticks := TicksFor(convert, IdsOf(devices), writes);
    Without(writes, w);
    if PackageFor(convert, IdsOf(devices), w).Some? {
      var tick := Tick(w.device, w.packet.header.timestampNs);
      Without(ticks, tick);
      NewestTimeMovesSlowly(|devices|, ticks + [tick]);
    }
  }
}
