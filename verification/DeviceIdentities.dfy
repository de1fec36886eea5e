/** A recording plays back per device exactly if the devices' identifiers differ. */
module DeviceIdentities {
  import opened AssemblerFrames
  import opened AssemblerRuns
  import opened Bytes
  import opened FrameAssembler
  import opened Lvx2Format
  import opened Lvx2Layout
  import opened Lvx2Player
  import opened Lvx2RoundTrip
  import opened Packets
  import opened RecordThenPlay
  import opened TimeMapper
  import opened Wrappers
  import CutPlayback
  import Recording
  import RecordingFrames
  import RecordingTime
  import Writer = Lvx2Writer

  /** Device `d` gets the frames of an assembler of its own on the packets captured from it. */
  ghost predicate GetsItsOwn(
    convert: Writer.Converter, devices: seq<Device>, durationMs: U32, options: PlayOptions, captures: seq<Capture>,
    d: nat)
    requires 0 < |devices| < 256 && durationMs > 0
  {
    var r := Play(options, RecordedFile(convert, devices, durationMs, captures));
    && r.Ok?
    && FramesFor(r.value.log, d) == Outputs(options.policy, Lidar, OwnPushes(convert, captures, d) + [Flush]).1
  }

  /** Every recording below the file limit gives every device its own frames. */
  ghost predicate KeptApart(
    convert: Writer.Converter, devices: seq<Device>, durationMs: U32, options: PlayOptions)
    requires 0 < |devices| < 256 && durationMs > 0
  {
    forall captures: seq<Capture>, d: nat ::
      d < |devices| && |RecordedFile(convert, devices, durationMs, captures)| < FILE_LIMIT ==>
        GetsItsOwn(convert, devices, durationMs, options, captures, d)
  }

  // ---------------------------------------------------------------------------
  // One captured point
  // ---------------------------------------------------------------------------

  /** A packet of one point. */
  const ONE_POINT: Packet := RawPacket(PacketHeader(0, 1, 0, 0, Cartesian16, 0, 0), [0, 0, 0, 0, 0, 0, 0, 0])

  const ONE_POINT_DATA: (DataType, seq<Byte>) := (Cartesian16, [0, 0, 0, 0, 0, 0, 0, 0])

  lemma OnePointIsReplayed(convert: Writer.Converter)
    ensures Writer.Recorded(convert, ONE_POINT) == Some(ONE_POINT_DATA)
    ensures Replayed(convert, ONE_POINT) == Some(ONE_POINT)
  {
  }

  /** Any policy delivers the point in one frame. */
  lemma OnePointIsDelivered(policy: FramePolicy)
    ensures |Outputs(policy, Lidar, [Push(ONE_POINT, 0), Flush]).1| == 1
  {
    hide FallsBack, LatestNs, RawSample;
    var ops := [Push(ONE_POINT, 0), Flush];
    assert ops[..1] == [Push(ONE_POINT, 0)] && ops[..1][..0] == [];
    var start := Fresh(policy, Lidar);
    var s := Pushed(start, ONE_POINT, 0);
    assert !FrameChanged(start, ONE_POINT.header);
    assert Outputs(policy, Lidar, ops[..1]) == (s.0, []);
    assert |s.0.cur.points| == 1;
  }

  lemma OnePackageFrame(slot: nat, p: Package, timeNs: int)
    ensures Recording.FramesOf(Recording.Grouped([], slot, p, timeNs)) == [[p]]
  {
    var groups := Recording.Grouped([], slot, p, timeNs);
    assert groups[..0] == [] && Recording.FramesOf([]) == [];
  }

  lemma NothingRecorded(convert: Writer.Converter, devices: seq<Device>, durationMs: U32)
    requires 0 < |devices| < 256 && durationMs > 0
    ensures Recording.Run(convert, devices, durationMs, []).groups == []
  {
    hide Writer.FileHead;
  }

  lemma OneWrite(d: nat)
    ensures Writes([Capture(d, ONE_POINT)]) == [] + [Recording.Write(d, ONE_POINT)]
  {
    assert [Capture(d, ONE_POINT)][..0] == [];
  }

  lemma OneCaptureIsRecorded(convert: Writer.Converter, devices: seq<Device>, durationMs: U32, d: nat)
    requires 0 < |devices| < 256 && durationMs > 0 && d < |devices|
    ensures Recording.FramesOf(Recording.Run(convert, devices, durationMs, Writes([Capture(d, ONE_POINT)])).groups)
            == [[Writer.PackageOf(devices[d].lidarId, ONE_POINT.header, ONE_POINT_DATA)]]
  {
    hide Recording.Run, Recording.FramesOf, Recording.Grouped, RecordingTime.Slot, RecordingTime.TimeOf, Writes;
    var w, p := Recording.Write(d, ONE_POINT), Writer.PackageOf(devices[d].lidarId, ONE_POINT.header, ONE_POINT_DATA);
    OnePointIsReplayed(convert);
    assert Recording.PackageFor(convert, Writer.IdsOf(devices), w) == Some(p);
    NothingRecorded(convert, devices, durationMs);
    OneWrite(d);
    RecordingFrames.OneMoreWrite(convert, devices, durationMs, [], w);
    var line := Recording.Run(convert, devices, durationMs, []).writer.line;
    var timeNs := RecordingTime.TimeOf(line, d, 0);
    OnePackageFrame(RecordingTime.Slot(timeNs, durationMs * 1_000_000), p, timeNs);
  }

  lemma OneCaptureIsSmall(convert: Writer.Converter, devices: seq<Device>, durationMs: U32, d: nat)
    requires 0 < |devices| < 256 && durationMs > 0 && d < |devices|
    ensures |RecordedFile(convert, devices, durationMs, [Capture(d, ONE_POINT)])| < FILE_LIMIT
  {
    hide Recording.Run, Writer.Closed, Recording.FramesOf, FrameHead, PackageHead, FileHeader, DeviceBlock;
    Recording.FileHoldsThePackages(convert, devices, durationMs, Writes([Capture(d, ONE_POINT)]));
    OneCaptureIsRecorded(convert, devices, durationMs, d);
    var frames := [[Writer.PackageOf(devices[d].lidarId, ONE_POINT.header, ONE_POINT_DATA)]];
    assert frames[..0] == [] && frames[0][..0] == [];
    assert |Body(frames[0])| == PACKAGE_HEADER_SIZE + 8;
    var start := |Head(durationMs, devices)|;
    OffsetStep(start, frames, 0);
    NoneBefore(start, frames);
    assert frames[..1] == frames;
    assert |FileBytes(durationMs, devices, frames)| == start + |Chain(start, frames)|;
  }

  /** The pushes of one captured point: its own, and those it is played as. */
  lemma OneCapturePushes(convert: Writer.Converter, ids: seq<U32>, i: nat, j: nat)
    requires i < j < |ids| && ids[i] == ids[j]
    ensures Pushes(convert, ids, [Capture(j, ONE_POINT)], j) == []
    ensures OwnPushes(convert, [Capture(j, ONE_POINT)], j) == [Push(ONE_POINT, 0)]
  {
    assert [Capture(j, ONE_POINT)][..0] == [];
    OnePointIsReplayed(convert);
    assert ids[..j][i] == ids[j];
  }

  /**
    Where two devices have the same identifier, a single point captured from the second is lost to
    it: the file plays back no frame for it, and an assembler of its own delivers one.
  */
  lemma EqualIdentifiersMix(
    convert: Writer.Converter, devices: seq<Device>, durationMs: U32, options: PlayOptions, i: nat, j: nat)
    requires |devices| < 256 && durationMs > 0 && i < j < |devices| && devices[i].lidarId == devices[j].lidarId
    requires CutPlayback.Plays(options, devices)
    ensures var captures := [Capture(j, ONE_POINT)];
            var r := Play(options, RecordedFile(convert, devices, durationMs, captures));
            && |RecordedFile(convert, devices, durationMs, captures)| < FILE_LIMIT
            && r.Ok? && FramesFor(r.value.log, j) == []
            && |Outputs(options.policy, Lidar, OwnPushes(convert, captures, j) + [Flush]).1| == 1
  {
    hide Play, RecordedFile, FramesFor, Outputs, Pushes, OwnPushes;
    var captures, ids := [Capture(j, ONE_POINT)], Writer.IdsOf(devices);
    OneCaptureIsSmall(convert, devices, durationMs, j);
    RecordThenPlay.RecordThenPlay(convert, devices, durationMs, captures, options, j);
    OneCapturePushes(convert, ids, i, j);
    FlushOfNothing(options.policy);
    OnePointIsDelivered(options.policy);
    assert [Push(ONE_POINT, 0)] + [Flush] == [Push(ONE_POINT, 0), Flush];
    assert [] + [Flush] == [Flush];
  }

  lemma FlushOfNothing(policy: FramePolicy)
    ensures Outputs(policy, Lidar, [Flush]).1 == []
  {
    assert [Flush][..0] == [];
  }

  /**
    Recording any packets of up to 255 LiDARs and playing the file gives every device exactly the
    frames of its own packets if and only if the identifiers of the devices differ.
  */
  lemma KeptApartExactlyIfDistinct(
    convert: Writer.Converter, devices: seq<Device>, durationMs: U32, options: PlayOptions)
    requires 0 < |devices| < 256 && durationMs > 0 && CutPlayback.Plays(options, devices)
    ensures KeptApart(convert, devices, durationMs, options) <==> Distinct(Writer.IdsOf(devices))
  {
    hide Play, RecordedFile, FramesFor, Outputs, OwnPushes;
    var ids := Writer.IdsOf(devices);
    if Distinct(ids) {
      forall captures: seq<Capture>, d: nat
        | d < |devices| && |RecordedFile(convert, devices, durationMs, captures)| < FILE_LIMIT
        ensures GetsItsOwn(convert, devices, durationMs, options, captures, d)
      {
        DistinctDevicesRecordThenPlay(convert, devices, durationMs, captures, options, d);
      }
    } else {
      var i, j :| 0 <= i < j < |ids| && ids[i] == ids[j];
      EqualIdentifiersMix(convert, devices, durationMs, options, i, j);
      assert !GetsItsOwn(convert, devices, durationMs, options, [Capture(j, ONE_POINT)], j);
    }
  }
}
