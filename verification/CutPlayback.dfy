/** Playing what is left of a recording, and recordings with payloads that are not whole points. */
module CutPlayback {
  import opened AssemblerFrames
  import opened AssemblerRuns
  import opened Bytes
  import opened Lvx2Format
  import opened Lvx2Layout
  import opened Lvx2Player
  import opened Lvx2RoundTrip
  import opened Packets
  import opened Reader = Lvx2Reader
  import opened RecordThenPlay
  import opened Seqs
  import opened TimeMapper
  import opened Wrappers
  import Recording
  import Writer = Lvx2Writer

  /** The options let a file of these devices play. */
  predicate Plays(options: PlayOptions, devices: seq<Device>) {
    options.lidarId == None && (|devices| > 1 && options.onFrame ==> options.onDeviceFrame)
  }

  /** A pass that ends in an error has delivered what the assemblers had closed by then. */
  lemma DeliveredBeforeError(
    policy: FrameAssembler.FramePolicy, ids: seq<U32>, only: Option<U32>, packets: seq<LvxPacket>,
    packages: seq<Package>, e: nat)
    requires ids != [] && e < |ids|
    requires |packages| == |packets| && forall x :: 0 <= x < |packets| ==> packets[x].package == packages[x]
    ensures FramesFor(PlayedAll(policy, ids, only, packets).log, e)
            == Outputs(policy, Lidar, OpsFor(ids, only, packages, e)).1
  {
    hide FramesFor, OpsFor, PlayedAll, Outputs;
    PlayedAlone(policy, ids, only, packets, packages, e);
  }

  /** The first `n` packages, as read. */
  lemma TaggedPrefix(frames: seq<seq<Package>>, packets: seq<LvxPacket>)
    requires |frames| <= FILE_LIMIT && |packets| <= |Tagged(frames)| && packets == Tagged(frames)[..|packets|]
    ensures |packets| <= |Recording.Flat(frames)|
    ensures forall x :: 0 <= x < |packets| ==> packets[x].package == Recording.Flat(frames)[..|packets|][x]
  {
    hide Tagged, Recording.Flat;
    TaggedIsFlat(frames);
  }

  /**
    Playing any file the writer can produce with payloads under 4 GiB, cut at any byte after its device
    block: each device gets the frames of an assembler of its own on the packages that end before the
    cut and precede the first one that is not whole points. If the header of that one is before the cut,
    the run fails and the open frames are not delivered; otherwise it succeeds and they are.
  */
  lemma AnyCutPlays(
    durationMs: U32, devices: seq<Device>, frames: seq<seq<Package>>, cut: nat, options: PlayOptions, d: nat)
    requires 0 < |devices| < 256 && |frames| < FILE_LIMIT && AllRecordable(frames) && d < |devices|
    requires |Head(durationMs, devices)| <= cut <= |FileBytes(durationMs, devices, frames)| < FILE_LIMIT
    requires Plays(options, devices)
    ensures var s, start := ReadCut(durationMs, devices, frames, cut), |Head(durationMs, devices)|;
            var n, bad := |s.packets|, FirstUnwhole(Tagged(frames));
            && n <= |Recording.Flat(frames)| && |Tagged(frames)| == |Ends(start, frames)|
            && (forall x :: 0 <= x < |Tagged(frames)| ==> (x < n <==> x < bad && Ends(start, frames)[x] <= cut))
            && var r := Play(options, FileBytes(durationMs, devices, frames)[..cut]);
            var ops := OpsFor(Writer.IdsOf(devices), None, Recording.Flat(frames)[..n], d);
            if bad < |Tagged(frames)| && HeadEnd(start, frames, bad) <= cut then
              && r.Err? && r.error.Unreadable? && r.error.error == BadFile
              && FramesFor(r.error.played.log, d) == Outputs(options.policy, Lidar, ops).1
            else
              r.Ok? && FramesFor(r.value.log, d) == Outputs(options.policy, Lidar, ops + [Flush]).1
  {
    hide FileBytes, Reader.Opened, ReadAll, FramesFor, PlayedAll, Finished, Outputs, OpsFor, Writer.IdsOf, Listed,
      Tagged, Ends, HeadEnd, Recording.Flat, Head, FirstUnwhole, OnBoundary;
    CutOpens(durationMs, devices, frames, cut);
    CutFileReadsExactly(durationMs, devices, frames, cut);
    AllDevicesListed(devices);
    var packets, ids := ReadCut(durationMs, devices, frames, cut).packets, Writer.IdsOf(devices);
    TaggedPrefix(frames, packets);
    var packages := Recording.Flat(frames)[..|packets|];
    DevicesDoNotMix(options.policy, ids, None, packets, packages, d);
    DeliveredBeforeError(options.policy, ids, None, packets, packages, d);
  }

  /** The captures whose packages are the first `n`. */
  lemma {:induction false} FirstCaptures(convert: Writer.Converter, ids: seq<U32>, captures: seq<Capture>, n: nat)
    returns (m: nat)
    requires n <= |Recording.PackagesFor(convert, ids, Writes(captures))|
    ensures m <= |captures|
    ensures Recording.PackagesFor(convert, ids, Writes(captures[..m]))
            == Recording.PackagesFor(convert, ids, Writes(captures))[..n]
    decreases |captures|
  {
    hide Recording.PackageFor;
    var all := Recording.PackagesFor(convert, ids, Writes(captures));
    m := |captures|;
    assert captures[..m] == captures && all[..|all|] == all;
    if n < |all| {
      Without(Writes(captures[..m - 1]), Recording.Write(captures[m - 1].device, captures[m - 1].packet));
      var before := captures[..m - 1];
      m := FirstCaptures(convert, ids, before, n);
      assert before[..m] == captures[..m];
    }
  }

  /** The frames of the recorded file. */
  function RecordedFrames(convert: Writer.Converter, devices: seq<Device>, durationMs: U32, captures: seq<Capture>)
    : (frames: seq<seq<Package>>)
    requires 0 < |devices| < 256 && durationMs > 0
  {
    Recording.FramesOf(Recording.Run(convert, devices, durationMs, Writes(captures)).groups)
  }

  /**
    Recording any packets, cutting the file at any byte after its device block and playing what is
    left: each device gets exactly the frames that the recording of the first captures, up to the last
    package that ends before the cut, would give it.
  */
  lemma CutRecordingPlays(
    convert: Writer.Converter, devices: seq<Device>, durationMs: U32, captures: seq<Capture>, cut: nat,
    options: PlayOptions, d: nat)
    returns (m: nat)
    requires 0 < |devices| < 256 && durationMs > 0 && d < |devices| && Plays(options, devices)
    requires |RecordedFile(convert, devices, durationMs, captures)| < FILE_LIMIT
    requires |Head(durationMs, devices)| <= cut <= |RecordedFile(convert, devices, durationMs, captures)|
    ensures m <= |captures|
    ensures var ids := Writer.IdsOf(devices);
            var ends := Ends(|Head(durationMs, devices)|, RecordedFrames(convert, devices, durationMs, captures));
            var n := |Recording.PackagesFor(convert, ids, Writes(captures[..m]))|;
            && |ends| == |Recording.PackagesFor(convert, ids, Writes(captures))|
            && (forall x :: 0 <= x < |ends| ==> (x < n <==> ends[x] <= cut))
            && var r := Play(options, RecordedFile(convert, devices, durationMs, captures)[..cut]);
            && r.Ok?
            && FramesFor(r.value.log, d)
               == Outputs(options.policy, Lidar, Pushes(convert, ids, captures[..m], d) + [Flush]).1
  {
    hide Recording.Run, Writer.Closed, FileBytes, Play, FramesFor, Outputs, OpsFor, Pushes, Writer.IdsOf, Tagged, Ends,
      HeadEnd, Recording.Flat, Head, ReadCut, Recording.PackagesFor, Readable;
    var ids, frames := Writer.IdsOf(devices), RecordedFrames(convert, devices, durationMs, captures);
    Recording.FileHoldsThePackages(convert, devices, durationMs, Writes(captures));
    FramesAreFew(durationMs, devices, frames);
    PushesArePlayed(convert, ids, captures, d);
    EveryPackageReadable(frames);
    TaggedIsFlat(frames);
    AnyCutPlays(durationMs, devices, frames, cut, options, d);
    var n := |ReadCut(durationMs, devices, frames, cut).packets|;
    m := FirstCaptures(convert, ids, captures, n);
    PushesArePlayed(convert, ids, captures[..m], d);
  }

  // ---------------------------------------------------------------------------
  // A payload that is not whole points
  // ---------------------------------------------------------------------------

  const DEVICE: Device := DeviceInfo([], [], 1, 0, 9, false, seq(24, _ => 0))

  /** A Cartesian packet with one byte of data. */
  const ONE_BYTE := RawPacket(PacketHeader(0, 0, 0, 0, Cartesian32, 0, 0), [0])

  const ONE_BYTE_PACKAGE := Package(1, 0, 0, 0, Cartesian32, 0, [0])

  lemma OneByteIsRecorded(convert: Writer.Converter)
    ensures Recording.FramesOf(Recording.Run(convert, [DEVICE], 50, [Recording.Write(0, ONE_BYTE)]).groups)
            == [[ONE_BYTE_PACKAGE]]
  {
    hide Writer.FileHead, Writer.Appended;
    var w := Recording.Write(0, ONE_BYTE);
    assert [w][..0] == [];
    var t := Recording.Begun([DEVICE], 50);
    assert Recording.Run(convert, [DEVICE], 50, []) == t;
    assert t.writer.lidarIds == [1];
    assert Recording.PackageFor(convert, [1], w) == Some(ONE_BYTE_PACKAGE);
    var groups := Recording.Run(convert, [DEVICE], 50, [w]).groups;
    assert |groups| == 1 && groups[0].packages == [ONE_BYTE_PACKAGE];
    assert groups[..0] == [];
  }

  lemma OneByteIsAccepted(convert: Writer.Converter)
    ensures var w := Recording.Run(convert, [DEVICE], 50, []).writer;
            Writer.Written(convert, w, 0, ONE_BYTE).1 == Ok(true)
  {
    hide Writer.FileHead, Writer.Appended;
  }

  /** The writer records such a packet, and the reader then refuses the file at that package. */
  lemma OneBytePayloadDoesNotReadBack(convert: Writer.Converter)
    ensures var w := Recording.Run(convert, [DEVICE], 50, []).writer;
            Writer.Written(convert, w, 0, ONE_BYTE).1 == Ok(true)
    ensures var file := Writer.Closed(Recording.Run(convert, [DEVICE], 50, [Recording.Write(0, ONE_BYTE)]).writer).file;
            Reader.Opened(file).Ok? && ReadAll(Reader.Opened(file).value.reader) == Reading([], Err(BadFile))
  {
    hide Reader.Opened, ReadAll, Recording.Run, Writer.Written, Writer.Closed, FileBytes, Head, Tagged,
      Recording.FramesOf, FirstUnwhole;
    var frames := [[ONE_BYTE_PACKAGE]];
    var file := FileBytes(50, [DEVICE], frames);
    OneByteIsAccepted(convert);
    Recording.FileHoldsThePackages(convert, [DEVICE], 50, [Recording.Write(0, ONE_BYTE)]);
    OneByteIsRecorded(convert);
    OneByteTagged();
    SmallFile();
    CutOpens(50, [DEVICE], frames, |file|);
    assert file[..|file|] == file;
    FileReadsBack(50, [DEVICE], frames);
  }

  lemma OneByteTagged()
    ensures Tagged([[ONE_BYTE_PACKAGE]]) == [LvxPacket(0, 0, ONE_BYTE_PACKAGE)]
    ensures FirstUnwhole([LvxPacket(0, 0, ONE_BYTE_PACKAGE)]) == 0
    ensures AllRecordable([[ONE_BYTE_PACKAGE]]) && !AllReadable([[ONE_BYTE_PACKAGE]])
  {
    var frames, packet := [[ONE_BYTE_PACKAGE]], LvxPacket(0, 0, ONE_BYTE_PACKAGE);
    assert frames[..0] == [] && frames[0][..0] == [] && [packet][..0] == [];
    assert TaggedFrame(0, frames[0]) == [packet];
    assert Tagged(frames) == [packet];
    assert !Readable(Tagged(frames)[0].package);
  }

  lemma SmallFile()
    ensures |Head(50, [DEVICE])| <= |FileBytes(50, [DEVICE], [[ONE_BYTE_PACKAGE]])| < FILE_LIMIT
  {
    hide FrameHead, PackageHead, FileHeader, DeviceBytes;
    var frames := [[ONE_BYTE_PACKAGE]];
    assert frames[..0] == [] && frames[0][..0] == [];
    assert |Body(frames[0])| == PACKAGE_HEADER_SIZE + 1;
    var start := |Head(50, [DEVICE])|;
    OffsetStep(start, frames, 0);
    NoneBefore(start, frames);
    assert frames[..1] == frames;
    assert |FileBytes(50, [DEVICE], frames)| == start + |Chain(start, frames)|;
  }
}
