/**
  The lvx2 player (src/lvx2.cpp): one pass over a file, one frame assembler per played device.
  Pacing, looping and the stop token are not part of the model.
*/
module Lvx2Player {
  import opened Bytes
  import opened FrameAssembler
  import opened Lvx2Format
  import opened Reader = Lvx2Reader
  import opened Packets
  import opened Seqs
  import opened TimeMapper
  import opened Wrappers

  /** The options of the player, and which frame callbacks are set. */
  datatype PlayOptions = PlayOptions(policy: FramePolicy, lidarId: Option<U32>, onFrame: bool, onDeviceFrame: bool)

  datatype DevicePlay = DevicePlay(
    assembler: State, nextIndex: U32, packets: nat, frames: nat, points: nat, droppedPackets: nat)

  /** A frame handed to the callbacks, with the position of its device among the played ones. */
  datatype Delivery = Delivery(device: nat, frame: Frame)

  datatype PlayState = PlayState(devices: seq<DevicePlay>, log: seq<Delivery>, unlisted: nat)

  /** A file that turns out bad in the middle has been played up to there. */
  datatype PlayError = InvalidArgument | NotOpened(error: ReadError) | Unreadable(error: ReadError, played: PlayState)

  /** to_data_packet_view: the point count is 16 bits wide, and the interval is not recorded. */
  function ViewOf(p: Package): (v: Packet) {
    var size := SampleSize(p.dataType);
    var dots: U16 := |p.points| / size % 0x1_0000;
    var header := PacketHeader(0, dots, p.udpCnt, p.frameCnt, p.dataType, p.timeType, p.timestampNs);
    DotsFit(|p.points|, size);
    RawPacket(header, p.points[..dots * size])
  }

  lemma DotsFit(length: nat, size: nat)
    requires size > 0
    ensures 0 <= length / size % 0x1_0000 * size <= length
  {
    var q := length / size;
    assert q % 0x1_0000 <= q;
    assert q % 0x1_0000 * size <= q * size;
  }

  /** The devices to play; a file without any plays as one unnamed device. */
  function PlayedIds(devices: seq<Device>, only: Option<U32>): (ids: seq<U32>)
    ensures ids != []
  {
    var listed := Listed(devices, only);
    if listed == [] then [0] else listed
  }

  function Listed(devices: seq<Device>, only: Option<U32>): (ids: seq<U32>) {
    if devices == [] then []
    else
      var before, id := Listed(devices[..|devices| - 1], only), devices[|devices| - 1].lidarId;
      if only.None? || only.value == id then before + [id] else before
  }

  function Find(ids: seq<U32>, id: U32): (d: Option<nat>)
    ensures d.Some? ==> d.value < |ids| && ids[d.value] == id && id !in ids[..d.value]
    ensures d.None? ==> id !in ids
  {
    if ids == [] then None
    else
      var d := Find(ids[..|ids| - 1], id);
      if d.Some? then d else if ids[|ids| - 1] == id then Some(|ids| - 1) else None
  }

  /** The device a package is played as. */
  function DeviceOf(ids: seq<U32>, only: Option<U32>, id: U32): (d: Option<nat>)
    requires ids != []
    ensures d.Some? ==> d.value < |ids|
  {
    if |ids| > 1 then Find(ids, id)
    else if only.Some? && id != only.value then None
    else Some(0)
  }

  function Ready(policy: FramePolicy, n: nat): (s: PlayState) {
    PlayState(seq(n, _ => DevicePlay(Fresh(policy, Lidar), 0, 0, 0, 0, 0)), [], 0)
  }

  /** Device `d` moves on to the assembler state `a` and delivers `out`, if anything. */
  function HandedOut(s: PlayState, d: nat, a: State, out: Option<Frame>): (r: PlayState)
    requires d < |s.devices|
    ensures |r.devices| == |s.devices|
  {
    var dev := s.devices[d].(assembler := a);
    match out
    case None => s.(devices := s.devices[d := dev])
    case Some(f) =>
      s.(devices := s.devices[d := dev.(nextIndex := (dev.nextIndex + 1) % 0x1_0000_0000, frames := dev.frames + 1,
                                        points := dev.points + |f.points|)],
         log := s.log + [Delivery(d, f.(index := dev.nextIndex))])
  }

  function Played(s: PlayState, ids: seq<U32>, only: Option<U32>, p: Package): (r: PlayState)
    requires ids != [] && |s.devices| == |ids|
    ensures |r.devices| == |ids|
  {
    match DeviceOf(ids, only, p.lidarId)
    case None => if |ids| > 1 then s.(unlisted := s.unlisted + 1) else s
    case Some(d) =>
      var counted := s.(devices := s.devices[d := s.devices[d].(packets := s.devices[d].packets + 1)]);
      var (a, out) := Pushed(s.devices[d].assembler, ViewOf(p), p.timestampNs);
      HandedOut(counted, d, a, out)
  }

  function PlayedAll(policy: FramePolicy, ids: seq<U32>, only: Option<U32>, packets: seq<LvxPacket>): (s: PlayState)
    requires ids != []
    ensures |s.devices| == |ids|
  {
    if packets == [] then Ready(policy, |ids|)
    else
      var n := |packets| - 1;
      Played(PlayedAll(policy, ids, only, packets[..n]), ids, only, packets[n].package)
  }

  /** The end of the pass: the first `n` devices deliver what is left. */
  function Finished(s: PlayState, n: nat): (r: PlayState)
    requires n <= |s.devices|
    ensures |r.devices| == |s.devices|
  {
    if n == 0 then s
    else
      var t, d := Finished(s, n - 1), n - 1;
      var (a, out) := Flushed(t.devices[d].assembler);
      var u := HandedOut(t, d, a, out);
      u.(devices := u.devices[d := u.devices[d].(
                                 droppedPackets := u.devices[d].droppedPackets + a.counters.droppedPackets)])
  }

  /** Lvx2Player::open and run. */
  function Play(options: PlayOptions, file: seq<Byte>): (r: Result<PlayState, PlayError>) {
    var o := Reader.Opened(file);
    if o.Err? then Err(NotOpened(o.error))
    else
      var devices, only := o.value.devices, options.lidarId;
      var ids := PlayedIds(devices, only);
      if only.Some? && Listed(devices, only) == [] then Err(InvalidArgument)
      else if |ids| > 1 && options.onFrame && !options.onDeviceFrame then Err(InvalidArgument)
      else
        var s := ReadAll(o.value.reader);
        var played := PlayedAll(options.policy, ids, only, s.packets);
        if s.end.Err? then Err(Unreadable(s.end.error, played)) else Ok(Finished(played, |ids|))
  }

  /** The whole run, one package at a time. */
  method Run(options: PlayOptions, file: seq<Byte>) returns (r: Result<PlayState, PlayError>)
    ensures r == Play(options, file)
  {
    hide Played, Reader.Opened, Next, HandedOut, Flushed;
    var reader := new Lvx2Reader();
    var opening := reader.Open(file);
    if opening.Err? { return Err(NotOpened(opening.error)); }
    var only := options.lidarId;
    if only.Some? && Listed(reader.devices, only) == [] { return Err(InvalidArgument); }
    var ids := PlayedIds(reader.devices, only);
    if |ids| > 1 && options.onFrame && !options.onDeviceFrame { return Err(InvalidArgument); }
    ghost var all := ReadAll(reader.View());
    ghost var seen: seq<LvxPacket> := [];
    var s := Ready(options.policy, |ids|);
    var more := true;
    while more
      invariant Reader.Valid(reader.View()) && reader.isOpen
      invariant s == PlayedAll(options.policy, ids, only, seen)
      invariant more ==> seen + ReadAll(reader.View()).packets == all.packets
      invariant more ==> ReadAll(reader.View()).end == all.end
      invariant !more ==> seen == all.packets && all.end.Ok?
      decreases more, |reader.file| - reader.at, |reader.frame| - reader.pos
    {
      ghost var rest := ReadAll(reader.View());
      var next := reader.NextPacket();
      if next.Err? {
        assert seen + [] == seen;
        return Err(Unreadable(next.error, s));
      }
      if next.value.None? {
        more := false;
        assert seen + [] == seen;
      } else {
        var p := next.value.value;
        Without(seen, p);
        Assoc(seen, [p], ReadAll(reader.View()).packets);
        s := Played(s, ids, only, p.package);
        seen := seen + [p];
      }
    }
    ghost var played := s;
    for d := 0 to |ids|
      invariant |s.devices| == |ids| && s == Finished(played, d)
    {
      var (a, out) := Flushed(s.devices[d].assembler);
      var u := HandedOut(s, d, a, out);
      var dev := u.devices[d];
      s := u.(devices := u.devices[d := dev.(droppedPackets := dev.droppedPackets + a.counters.droppedPackets)]);
    }
    r := Ok(s);
  }
}
