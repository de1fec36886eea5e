/** Recording packets and playing the file gives, per device, the frames of its own packets. */
module RecordThenPlay {
  import opened AssemblerFrames
  import opened AssemblerRuns
  import opened Bytes
  import opened Division
  import opened FrameAssembler
  import opened Lvx2Format
  import opened Lvx2Layout
  import opened Lvx2Player
  import opened Lvx2RoundTrip
  import opened Packets
  import opened Reader = Lvx2Reader
  import opened Seqs
  import opened TimeMapper
  import opened Wrappers
  import Recording
  import Writer = Lvx2Writer

  /** The packages played as device `d`, as pushes into an assembler. */
  function OpsFor(ids: seq<U32>, only: Option<U32>, packages: seq<Package>, d: nat): (ops: seq<Op>)
    requires ids != []
  {
    if packages == [] then []
    else
      var n := |packages| - 1;
      var before, p := OpsFor(ids, only, packages[..n], d), packages[n];
      if DeviceOf(ids, only, p.lidarId) == Some(d) then before + [Push(ViewOf(p), p.timestampNs)] else before
  }

  function FramesFor(log: seq<Delivery>, d: nat): (frames: seq<Frame>) {
    if log == [] then []
    else
      var n := |log| - 1;
      var before := FramesFor(log[..n], d);
      if log[n].device == d then before + [log[n].frame] else before
  }

  /** The device state and frames agree with an assembler of its own. */
  ghost predicate Alone(s: PlayState, d: nat, a: State, frames: seq<Frame>)
    requires d < |s.devices|
  {
    && s.devices[d].assembler == a
    && s.devices[d].nextIndex == a.nextIndex
    && FramesFor(s.log, d) == frames
    && s.devices[d].frames == |frames|
    && s.devices[d].points == PointTotal(frames)
  }

  function PointTotal(frames: seq<Frame>): (n: nat) {
    if frames == [] then 0 else PointTotal(frames[..|frames| - 1]) + |frames[|frames| - 1].points|
  }

  /** A delivered frame carries the next index. */
  lemma NextIndex(s: State, op: Op)
    requires op.Push? || op.Flush?
    ensures var (t, out) := Applied(s, op);
            if out.Some? then out.value.index == s.nextIndex && t.nextIndex == (s.nextIndex + 1) % 0x1_0000_0000
            else t.nextIndex == s.nextIndex
  {
    hide PointsOf, LatestNs, Closes, FallsBack, GridStart, StaysOnGrid, Drop, Mapped, Late;
  }

  lemma DeliveredAlone(s: PlayState, e: nat, op: Op, a: State, frames: seq<Frame>)
    requires e < |s.devices| && Alone(s, e, a, frames) && (op.Push? || op.Flush?)
    ensures var (a', out) := Applied(a, op);
            Alone(HandedOut(s, e, a', out), e, a', if out.Some? then frames + [out.value] else frames)
  {
    hide Applied;
    NextIndex(a, op);
    var (a', out) := Applied(a, op);
    if out.Some? {
      Without(s.log, Delivery(e, out.value));
      Without(frames, out.value);
    }
  }

  lemma {:induction false} PlayedAlone(policy: FramePolicy, ids: seq<U32>, only: Option<U32>,
      packets: seq<LvxPacket>, packages: seq<Package>, e: nat)
    requires ids != [] && e < |ids|
    requires |packages| == |packets| && forall x :: 0 <= x < |packets| ==> packets[x].package == packages[x]
    ensures var (a, frames) := Outputs(policy, Lidar, OpsFor(ids, only, packages, e));
            Alone(PlayedAll(policy, ids, only, packets), e, a, frames)
  {
    hide Applied, ViewOf, DeviceOf;
    if packets != [] {
      var n := |packets| - 1;
      PlayedAlone(policy, ids, only, packets[..n], packages[..n], e);
      var s, p := PlayedAll(policy, ids, only, packets[..n]), packages[n];
      var ops := OpsFor(ids, only, packages[..n], e);
      var (a, frames) := Outputs(policy, Lidar, ops);
      var device := DeviceOf(ids, only, p.lidarId);
      if device.Some? {
        PlayedOnce(s, ids, only, p, e, a, frames);
        if device == Some(e) { Without(ops, Push(ViewOf(p), p.timestampNs)); }
      }
    }
  }

  lemma PlayedOnce(s: PlayState, ids: seq<U32>, only: Option<U32>, p: Package, e: nat, a: State, frames: seq<Frame>)
    requires ids != [] && |s.devices| == |ids| && e < |ids| && Alone(s, e, a, frames)
    requires DeviceOf(ids, only, p.lidarId).Some?
    ensures var (a', out) := Applied(a, Push(ViewOf(p), p.timestampNs));
            var r := Played(s, ids, only, p);
            if DeviceOf(ids, only, p.lidarId) != Some(e) then Alone(r, e, a, frames)
            else Alone(r, e, a', if out.Some? then frames + [out.value] else frames)
  {
    hide Pushed, ViewOf, DeviceOf, FramesFor, HandedOut;
    var d := DeviceOf(ids, only, p.lidarId).value;
    var op := Push(ViewOf(p), p.timestampNs);
    var counted := s.(devices := s.devices[d := s.devices[d].(packets := s.devices[d].packets + 1)]);
    if d == e {
      DeliveredAlone(counted, e, op, a, frames);
    } else {
      var (b, out) := Applied(s.devices[d].assembler, op);
      OthersKeep(counted, d, b, out, e, a, frames);
    }
  }

  lemma OthersKeep(s: PlayState, d: nat, b: State, out: Option<Frame>, e: nat, a: State, frames: seq<Frame>)
    requires d < |s.devices| && e < |s.devices| && d != e && Alone(s, e, a, frames)
    ensures Alone(HandedOut(s, d, b, out), e, a, frames)
  {
    if out.Some? {
      Without(s.log, Delivery(d, out.value.(index := s.devices[d].nextIndex)));
    }
  }

  /** After the pass the device has flushed its assembler too. */
  lemma {:induction false} FinishedAlone(s: PlayState, n: nat, e: nat, a: State, frames: seq<Frame>)
    requires n <= |s.devices| && e < |s.devices| && Alone(s, e, a, frames)
    ensures var (a', out) := Applied(a, Flush);
            if n <= e then Alone(Finished(s, n), e, a, frames)
            else Alone(Finished(s, n), e, a', if out.Some? then frames + [out.value] else frames)
  {
    hide Flushed, HandedOut, FramesFor;
    if n > 0 {
      FinishedAlone(s, n - 1, e, a, frames);
      var t, d := Finished(s, n - 1), n - 1;
      if d == e {
        DeliveredAlone(t, e, Flush, a, frames);
      } else {
        var (b, out) := Applied(t.devices[d].assembler, Flush);
        var (a', end) := Applied(a, Flush);
        if e < d {
          OthersKeep(t, d, b, out, e, a', if end.Some? then frames + [end.value] else frames);
        } else {
          OthersKeep(t, d, b, out, e, a, frames);
        }
      }
    }
  }

  /** A pass over any packages: each device's frames are those of an assembler of its own. */
  lemma DevicesDoNotMix(policy: FramePolicy, ids: seq<U32>, only: Option<U32>, packets: seq<LvxPacket>,
      packages: seq<Package>, e: nat)
    requires ids != [] && e < |ids|
    requires |packages| == |packets| && forall x :: 0 <= x < |packets| ==> packets[x].package == packages[x]
    ensures FramesFor(Finished(PlayedAll(policy, ids, only, packets), |ids|).log, e)
            == Outputs(policy, Lidar, OpsFor(ids, only, packages, e) + [Flush]).1
  {
    hide Applied, FramesFor, OpsFor, PlayedAll, Finished;
    PlayedAlone(policy, ids, only, packets, packages, e);
    var ops := OpsFor(ids, only, packages, e);
    var (a, frames) := Outputs(policy, Lidar, ops);
    FinishedAlone(PlayedAll(policy, ids, only, packets), |ids|, e, a, frames);
    Without(ops, Flush);
  }

  /** The packet and drop counts of a device before the pass ends. */
  lemma {:induction false} PacketsAreCounted(
    policy: FramePolicy, ids: seq<U32>, only: Option<U32>, packets: seq<LvxPacket>, packages: seq<Package>, e: nat)
    requires ids != [] && e < |ids|
    requires |packages| == |packets| && forall x :: 0 <= x < |packets| ==> packets[x].package == packages[x]
    ensures var dev := PlayedAll(policy, ids, only, packets).devices[e];
            dev.packets == |OpsFor(ids, only, packages, e)| && dev.droppedPackets == 0
  {
    hide Pushed, ViewOf, DeviceOf;
    if packets != [] {
      var n := |packets| - 1;
      PacketsAreCounted(policy, ids, only, packets[..n], packages[..n], e);
    }
  }

  lemma {:induction false} DropsAreCounted(s: PlayState, n: nat, e: nat)
    requires n <= |s.devices| && e < |s.devices|
    ensures var dev, r := s.devices[e], Finished(s, n).devices[e];
            && r.packets == dev.packets
            && (if e >= n then r == dev
                else r.droppedPackets == dev.droppedPackets + r.assembler.counters.droppedPackets)
  {
    hide Flushed;
    if n > 0 { DropsAreCounted(s, n - 1, e); }
  }

  /** The statistics of each device count its packages, frames, points and drops. */
  lemma StatisticsAreExact(
    policy: FramePolicy, ids: seq<U32>, only: Option<U32>, packets: seq<LvxPacket>, packages: seq<Package>, e: nat)
    requires ids != [] && e < |ids|
    requires |packages| == |packets| && forall x :: 0 <= x < |packets| ==> packets[x].package == packages[x]
    ensures var ops := OpsFor(ids, only, packages, e);
            var (a, frames) := Outputs(policy, Lidar, ops + [Flush]);
            var dev := Finished(PlayedAll(policy, ids, only, packets), |ids|).devices[e];
            && dev.packets == |ops| && dev.frames == |frames| && dev.points == PointTotal(frames)
            && dev.droppedPackets == a.counters.droppedPackets
  {
    hide Applied, FramesFor, OpsFor, PlayedAll, Finished, PointTotal;
    PlayedAlone(policy, ids, only, packets, packages, e);
    PacketsAreCounted(policy, ids, only, packets, packages, e);
    var ops := OpsFor(ids, only, packages, e);
    var (a, frames) := Outputs(policy, Lidar, ops);
    FinishedAlone(PlayedAll(policy, ids, only, packets), |ids|, e, a, frames);
    DropsAreCounted(PlayedAll(policy, ids, only, packets), |ids|, e);
    Without(ops, Flush);
  }

  // ---------------------------------------------------------------------------
  // From the recorded packets to the played ones
  // ---------------------------------------------------------------------------

  /** A packet as it comes back: Cartesian, with the samples at one time. */
  function Replayed(convert: Writer.Converter, p: Packet): (r: Option<Packet>) {
    match Writer.Recorded(convert, p)
    case None => None
    case Some(rec) =>
      WholeSamples(convert, p);
      Some(RawPacket(p.header.(timeInterval := 0, dataType := rec.0), rec.1))
  }

  lemma WholeSamples(convert: Writer.Converter, p: Packet)
    ensures Writer.Recorded(convert, p).Some? ==>
              var rec := Writer.Recorded(convert, p).value;
              && (rec.0 == Cartesian32 || rec.0 == Cartesian16)
              && |rec.1| == p.header.dotNum * SampleSize(rec.0)
              && |rec.1| % SampleSize(rec.0) == 0
              && |rec.1| / SampleSize(rec.0) == p.header.dotNum
              && |rec.1| < 0x1_0000_0000
  {
    hide Writer.Converted;
    var n: int := p.header.dotNum;
    Quotient(10 * n, 10, n, 0);
    Quotient(14 * n, 14, n, 0);
    Quotient(8 * n, 8, n, 0);
  }

  lemma ViewIsReplayed(convert: Writer.Converter, p: Packet, lidarId: U32)
    requires Writer.Recorded(convert, p).Some?
    ensures Readable(Writer.PackageOf(lidarId, p.header, Writer.Recorded(convert, p).value))
    ensures Some(ViewOf(Writer.PackageOf(lidarId, p.header, Writer.Recorded(convert, p).value)))
            == Replayed(convert, p)
  {
    hide Writer.Recorded;
    WholeSamples(convert, p);
    var rec := Writer.Recorded(convert, p).value;
    assert rec.1[..|rec.1|] == rec.1;
  }

  /** A packet of the device at position `device`, as the writer gets it. */
  datatype Capture = Capture(device: nat, packet: Packet)

  function Writes(captures: seq<Capture>): (w: seq<Recording.Write>)
    ensures |w| == |captures|
  {
    if captures == [] then []
    else
      var n := |captures| - 1;
      Writes(captures[..n]) + [Recording.Write(captures[n].device, captures[n].packet)]
  }

  /** The pushes of the packets of the devices that are played as `d`. */
  function Pushes(convert: Writer.Converter, ids: seq<U32>, captures: seq<Capture>, d: nat): (ops: seq<Op>)
    requires ids != []
  {
    if captures == [] then []
    else
      var n := |captures| - 1;
      var before, c := Pushes(convert, ids, captures[..n], d), captures[n];
      var p := Replayed(convert, c.packet);
      if c.device < |ids| && DeviceOf(ids, None, ids[c.device]) == Some(d) && p.Some?
      then before + [Push(p.value, c.packet.header.timestampNs)]
      else before
  }

  lemma {:induction false} PushesArePlayed(convert: Writer.Converter, ids: seq<U32>, captures: seq<Capture>, d: nat)
    requires ids != []
    ensures OpsFor(ids, None, Recording.PackagesFor(convert, ids, Writes(captures)), d) == Pushes(convert, ids,
        captures, d)
    ensures forall p :: p in Recording.PackagesFor(convert, ids, Writes(captures)) ==> Readable(p)
  {
    hide Writer.Recorded, ViewOf, DeviceOf, Readable, Replayed;
    if captures != [] {
      var n := |captures| - 1;
      var c := captures[n];
      PushesArePlayed(convert, ids, captures[..n], d);
      var before := Recording.PackagesFor(convert, ids, Writes(captures[..n]));
      Without(Writes(captures[..n]), Recording.Write(c.device, c.packet));
      var package := Recording.PackageFor(convert, ids, Recording.Write(c.device, c.packet));
      if package.Some? {
        ViewIsReplayed(convert, c.packet, ids[c.device]);
        Without(before, package.value);
      } else if c.device < |ids| {
        NotReplayed(convert, c.packet);
      }
    }
  }

  lemma NotReplayed(convert: Writer.Converter, p: Packet)
    ensures Writer.Recorded(convert, p).None? ==> Replayed(convert, p).None?
  {
  }

  /** Reading returns the packages of the frames in order. */
  lemma {:induction false} TaggedIsFlat(frames: seq<seq<Package>>)
    requires |frames| <= FILE_LIMIT
    ensures |Tagged(frames)| == |Recording.Flat(frames)|
    ensures forall x :: 0 <= x < |Tagged(frames)| ==> Tagged(frames)[x].package == Recording.Flat(frames)[x]
  {
    if frames != [] {
      var n := |frames| - 1;
      TaggedIsFlat(frames[..n]);
      forall j | 0 <= j < |frames[n]| ensures TaggedFrame(n, frames[n])[j].package == frames[n][j] {
        InFrame(n, 0, frames[n], j);
      }
    }
  }

  lemma {:induction false} AllDevicesListed(devices: seq<Device>)
    ensures Listed(StoredAll(devices), None) == Writer.IdsOf(devices)
  {
    if devices != [] {
      var n := |devices| - 1;
      AllDevicesListed(devices[..n]);
      Without(StoredAll(devices[..n]), Stored(devices[n]));
    }
  }

  /** The recorded file. */
  function RecordedFile(convert: Writer.Converter, devices: seq<Device>, durationMs: U32,
      captures: seq<Capture>): (file: seq<Byte>)
    requires 0 < |devices| < 256 && durationMs > 0
  {
    Writer.Closed(Recording.Run(convert, devices, durationMs, Writes(captures)).writer).file
  }

  lemma FramesAreFew(durationMs: U32, devices: seq<Device>, frames: seq<seq<Package>>)
    requires |devices| < 256
    ensures |frames| <= |FileBytes(durationMs, devices, frames)|
  {
    hide FileHeader, DeviceBlock, Chain;
    var head := Head(durationMs, devices);
    OffsetsIncrease(|head|, frames, 0, |frames|);
    EndOfFile(head, frames);
    assert FileBytes(durationMs, devices, frames) == head + Chain(|head|, frames);
  }

  /** A recorded file opens with its devices and reads back as the recorded packages. */
  lemma RecordingReadsBack(convert: Writer.Converter, devices: seq<Device>, durationMs: U32, captures: seq<Capture>)
    requires 0 < |devices| < 256 && durationMs > 0
    requires |RecordedFile(convert, devices, durationMs, captures)| < FILE_LIMIT
    ensures var o := Reader.Opened(RecordedFile(convert, devices, durationMs, captures));
            && o.Ok? && o.value.devices == StoredAll(devices)
            && var s, packages := ReadAll(o.value.reader), Recording.PackagesFor(convert, Writer.IdsOf(devices),
                Writes(captures));
            && s.end.Ok? && !s.end.value.truncated && |s.packets| == |packages|
            && forall x :: 0 <= x < |s.packets| ==> s.packets[x].package == packages[x]
  {
    hide Recording.Run, Writer.Closed, Recording.PackagesFor, Tagged, Recording.Flat, FileBytes, Reader.Opened,
        ReadAll, Readable;
    Recording.FileHoldsThePackages(convert, devices, durationMs, Writes(captures));
    var frames := Recording.FramesOf(Recording.Run(convert, devices, durationMs, Writes(captures)).groups);
    var file := FileBytes(durationMs, devices, frames);
    FramesAreFew(durationMs, devices, frames);
    TaggedIsFlat(frames);
    PushesArePlayed(convert, Writer.IdsOf(devices), captures, 0);
    EveryPackageReadable(frames);
    HeadFits(durationMs, devices, frames);
    CutOpens(durationMs, devices, frames, |file|);
    assert file[..|file|] == file;
    FileReadsBack(durationMs, devices, frames);
  }

  lemma HeadFits(durationMs: U32, devices: seq<Device>, frames: seq<seq<Package>>)
    requires |devices| < 256
    ensures |Head(durationMs, devices)| <= |FileBytes(durationMs, devices, frames)|
  {
  }

  lemma EveryPackageReadable(frames: seq<seq<Package>>)
    requires |frames| <= FILE_LIMIT
    requires forall p :: p in Recording.Flat(frames) ==> Readable(p)
    ensures AllReadable(frames) && AllRecordable(frames)
  {
    hide Tagged, Recording.Flat;
    TaggedIsFlat(frames);
  }

  /**
    Recording any packets of up to 255 LiDARs, in any interleaving, and playing the file: each
    device's frames are exactly those of an assembler of its own on the packets recorded for it.
  */
  lemma RecordThenPlay(
    convert: Writer.Converter, devices: seq<Device>, durationMs: U32, captures: seq<Capture>, options: PlayOptions,
        d: nat)
    requires 0 < |devices| < 256 && durationMs > 0 && d < |devices|
    requires |RecordedFile(convert, devices, durationMs, captures)| < FILE_LIMIT
    requires options.lidarId == None && (|devices| > 1 && options.onFrame ==> options.onDeviceFrame)
    ensures var r := Play(options, RecordedFile(convert, devices, durationMs, captures));
            && r.Ok?
            && FramesFor(r.value.log, d)
               == Outputs(options.policy, Lidar, Pushes(convert, Writer.IdsOf(devices), captures, d) + [Flush]).1
  {
    hide RecordedFile, Reader.Opened, ReadAll, FramesFor, PlayedAll, Finished, Outputs, Recording.PackagesFor,
        OpsFor, Pushes, Writer.IdsOf, Listed;
    RecordingReadsBack(convert, devices, durationMs, captures);
    AllDevicesListed(devices);
    var ids := Writer.IdsOf(devices);
    var packages := Recording.PackagesFor(convert, ids, Writes(captures));
    PushesArePlayed(convert, ids, captures, d);
    var packets := ReadAll(Reader.Opened(RecordedFile(convert, devices, durationMs, captures)).value.reader).packets;
    DevicesDoNotMix(options.policy, ids, None, packets, packages, d);
  }

  lemma {:induction false} NoneUnlisted(policy: FramePolicy, ids: seq<U32>, only: Option<U32>, packets: seq<LvxPacket>)
    requires ids != []
    requires forall x :: 0 <= x < |packets| ==> DeviceOf(ids, only, packets[x].package.lidarId).Some?
    ensures PlayedAll(policy, ids, only, packets).unlisted == 0
  {
    hide DeviceOf, Pushed, ViewOf;
    if packets != [] { NoneUnlisted(policy, ids, only, packets[..|packets| - 1]); }
  }

  lemma {:induction false} FinishingListsNone(s: PlayState, n: nat)
    requires n <= |s.devices|
    ensures Finished(s, n).unlisted == s.unlisted
  {
    hide Flushed;
    if n > 0 { FinishingListsNone(s, n - 1); }
  }

  lemma {:induction false} RecordedAreListed(convert: Writer.Converter, ids: seq<U32>, writes: seq<Recording.Write>,
      x: nat)
    requires ids != [] && x < |Recording.PackagesFor(convert, ids, writes)|
    ensures DeviceOf(ids, None, Recording.PackagesFor(convert, ids, writes)[x].lidarId).Some?
    decreases |writes|
  {
    hide Writer.Recorded;
    var n := |writes| - 1;
    if x < |Recording.PackagesFor(convert, ids, writes[..n])| {
      RecordedAreListed(convert, ids, writes[..n], x);
    } else {
      assert ids[writes[n].device] in ids;
    }
  }

  /** Every package of a recording is played. */
  lemma NothingGoesAstray(
    convert: Writer.Converter, devices: seq<Device>, durationMs: U32, captures: seq<Capture>, options: PlayOptions)
    requires 0 < |devices| < 256 && durationMs > 0
    requires |RecordedFile(convert, devices, durationMs, captures)| < FILE_LIMIT
    requires options.lidarId == None && (|devices| > 1 && options.onFrame ==> options.onDeviceFrame)
    ensures var r := Play(options, RecordedFile(convert, devices, durationMs, captures));
            r.Ok? && r.value.unlisted == 0
  {
    hide RecordedFile, Reader.Opened, ReadAll, PlayedAll, Finished, Recording.PackagesFor, Writer.IdsOf, Listed,
        DeviceOf;
    RecordingReadsBack(convert, devices, durationMs, captures);
    AllDevicesListed(devices);
    var ids := Writer.IdsOf(devices);
    var packets := ReadAll(Reader.Opened(RecordedFile(convert, devices, durationMs, captures)).value.reader).packets;
    forall x | 0 <= x < |packets| ensures DeviceOf(ids, None, packets[x].package.lidarId).Some? {
      RecordedAreListed(convert, ids, Writes(captures), x);
    }
    NoneUnlisted(options.policy, ids, None, packets);
    FinishingListsNone(PlayedAll(options.policy, ids, None, packets), |ids|);
  }

  ghost predicate Distinct(ids: seq<U32>) {
    forall i, j :: 0 <= i < j < |ids| ==> ids[i] != ids[j]
  }

  /** The devices' packets are kept apart exactly if their identifiers differ. */
  lemma PlayedAsItself(ids: seq<U32>)
    requires ids != []
    ensures Distinct(ids) <==> forall d :: 0 <= d < |ids| ==> DeviceOf(ids, None, ids[d]) == Some(d)
  {
    if Distinct(ids) {
      forall d | 0 <= d < |ids| ensures DeviceOf(ids, None, ids[d]) == Some(d) {
        if |ids| > 1 { var _ := Find(ids, ids[d]); }
      }
    } else {
      var i, j :| 0 <= i < j < |ids| && ids[i] == ids[j];
      assert DeviceOf(ids, None, ids[i]) == DeviceOf(ids, None, ids[j]);
    }
  }

  /** The pushes of the packets of device `d` itself. */
  function OwnPushes(convert: Writer.Converter, captures: seq<Capture>, d: nat): (ops: seq<Op>) {
    if captures == [] then []
    else
      var n := |captures| - 1;
      var before, c := OwnPushes(convert, captures[..n], d), captures[n];
      var p := Replayed(convert, c.packet);
      if c.device == d && p.Some? then before + [Push(p.value, c.packet.header.timestampNs)] else before
  }

  lemma {:induction false} DistinctDevicesPlayTheirOwn(
    convert: Writer.Converter, ids: seq<U32>, captures: seq<Capture>, d: nat)
    requires Distinct(ids) && d < |ids|
    ensures Pushes(convert, ids, captures, d) == OwnPushes(convert, captures, d)
  {
    hide Replayed, DeviceOf, Distinct;
    PlayedAsItself(ids);
    if captures != [] {
      DistinctDevicesPlayTheirOwn(convert, ids, captures[..|captures| - 1], d);
    }
  }

  /**
    Recording any packets of up to 255 LiDARs with differing identifiers and playing the file: each
    device's frames are exactly those of an assembler of its own on the packets captured from it.
  */
  lemma DistinctDevicesRecordThenPlay(
    convert: Writer.Converter, devices: seq<Device>, durationMs: U32, captures: seq<Capture>, options: PlayOptions,
    d: nat)
    requires 0 < |devices| < 256 && durationMs > 0 && d < |devices| && Distinct(Writer.IdsOf(devices))
    requires |RecordedFile(convert, devices, durationMs, captures)| < FILE_LIMIT
    requires options.lidarId == None && (|devices| > 1 && options.onFrame ==> options.onDeviceFrame)
    ensures var r := Play(options, RecordedFile(convert, devices, durationMs, captures));
            && r.Ok?
            && FramesFor(r.value.log, d) == Outputs(options.policy, Lidar, OwnPushes(convert, captures, d) + [Flush]).1
  {
    hide Play, RecordedFile, FramesFor, Outputs, Pushes, OwnPushes, Writer.IdsOf;
    RecordThenPlay(convert, devices, durationMs, captures, options, d);
    DistinctDevicesPlayTheirOwn(convert, Writer.IdsOf(devices), captures, d);
  }

  // ---------------------------------------------------------------------------
  // Playing one device of the file
  // ---------------------------------------------------------------------------

  /** With differing identifiers exactly one device has the chosen one. */
  lemma {:induction false} OneIsListed(devices: seq<Device>, id: U32)
    requires Distinct(Writer.IdsOf(devices))
    ensures Listed(StoredAll(devices), Some(id)) == if id in Writer.IdsOf(devices) then [id] else []
  {
    hide Stored;
    if devices != [] {
      var n := |devices| - 1;
      var ids := Writer.IdsOf(devices);
      assert ids[..n] == Writer.IdsOf(devices[..n]);
      assert Distinct(ids[..n]);
      OneIsListed(devices[..n], id);
      Without(StoredAll(devices[..n]), Stored(devices[n]));
      assert ids == ids[..n] + [ids[n]];
      KeptId(devices[n]);
    }
  }

  lemma KeptId(d: Device)
    ensures Stored(d).lidarId == d.lidarId
  {
  }

  lemma {:induction false} OnlyOwnPushes(convert: Writer.Converter, ids: seq<U32>, captures: seq<Capture>, e: nat)
    requires Distinct(ids) && e < |ids|
    ensures OpsFor([ids[e]], Some(ids[e]), Recording.PackagesFor(convert, ids, Writes(captures)), 0)
            == OwnPushes(convert, captures, e)
  {
    hide Writer.Recorded, ViewOf, Replayed;
    if captures != [] {
      var n := |captures| - 1;
      var c := captures[n];
      OnlyOwnPushes(convert, ids, captures[..n], e);
      var before := Recording.PackagesFor(convert, ids, Writes(captures[..n]));
      Without(Writes(captures[..n]), Recording.Write(c.device, c.packet));
      var package := Recording.PackageFor(convert, ids, Recording.Write(c.device, c.packet));
      if package.Some? {
        ViewIsReplayed(convert, c.packet, ids[c.device]);
        Without(before, package.value);
        assert ids[c.device] == ids[e] <==> c.device == e;
      } else if c.device < |ids| {
        NotReplayed(convert, c.packet);
      }
    }
  }

  /**
    Recording any packets of LiDARs with differing identifiers and playing one of them, chosen by its
    identifier: the frames are exactly those of an assembler on the packets captured from it.
  */
  lemma RecordThenPlayOne(
    convert: Writer.Converter, devices: seq<Device>, durationMs: U32, captures: seq<Capture>, options: PlayOptions,
    e: nat)
    requires 0 < |devices| < 256 && durationMs > 0 && e < |devices| && Distinct(Writer.IdsOf(devices))
    requires |RecordedFile(convert, devices, durationMs, captures)| < FILE_LIMIT
    requires options.lidarId == Some(devices[e].lidarId)
    ensures var r := Play(options, RecordedFile(convert, devices, durationMs, captures));
            && r.Ok?
            && FramesFor(r.value.log, 0) == Outputs(options.policy, Lidar, OwnPushes(convert, captures, e) + [Flush]).1
  {
    hide RecordedFile, Reader.Opened, ReadAll, FramesFor, PlayedAll, Finished, Outputs, Recording.PackagesFor, OpsFor,
      OwnPushes, Listed, Distinct;
    RecordingReadsBack(convert, devices, durationMs, captures);
    var ids := Writer.IdsOf(devices);
    var id := ids[e];
    assert id in ids;
    OneIsListed(devices, id);
    var packages := Recording.PackagesFor(convert, ids, Writes(captures));
    OnlyOwnPushes(convert, ids, captures, e);
    var packets := ReadAll(Reader.Opened(RecordedFile(convert, devices, durationMs, captures)).value.reader).packets;
    DevicesDoNotMix(options.policy, [id], Some(id), packets, packages, 0);
  }
}
