/** The lvx2 writer (src/lvx2.cpp). The file is the byte string written so far. */
module Lvx2Writer {
  import opened Bytes
  import opened Lvx2Format
  import opened Packets
  import opened RecordingTime
  import opened Seqs
  import opened Wrappers

  datatype WriteError = AlreadyOpen | DeviceCount | ZeroDuration | NotOpen | DeviceIndex

  datatype Stats = Stats(packets: nat, frames: nat, bytes: nat, ignored: nat)

  datatype WriterState = WriterState(
    isOpen: bool, file: seq<Byte>, lidarIds: seq<U32>, durationMs: U32, stats: Stats,
    frame: seq<Byte>, frameSlot: Option<nat>, line: Line, frameIndex: nat, offset: nat)

  const CLOSED := WriterState(false, [], [], 50, Stats(0, 0, 0, 0), [], None, Line([], 0), 0, 0)

  type SphericalSample = s: seq<Byte> | |s| == 10 witness seq(10, _ => 0)
  type CartesianSample = s: seq<Byte> | |s| == 14 witness seq(14, _ => 0)

  /** The trigonometry of spherical_to_cartesian32. */
  type Converter = SphericalSample -> CartesianSample

  function IdsOf(devices: seq<Device>): (ids: seq<U32>)
    ensures |ids| == |devices|
    ensures forall k :: 0 <= k < |ids| ==> ids[k] == devices[k].lidarId
  {
    if devices == [] then [] else IdsOf(devices[..|devices| - 1]) + [devices[|devices| - 1].lidarId]
  }

  function FileHead(devices: seq<Device>, durationMs: U32): (s: seq<Byte>)
    requires |devices| < 256
    ensures |s| == FILE_HEADER_SIZE + DEVICE_INFO_SIZE * |devices|
  {
    FileHeader(durationMs, |devices|) + DeviceBlock(devices)
  }

  function Opened(w: WriterState, devices: seq<Device>, durationMs: U32): (r: Result<WriterState, WriteError>) {
    if w.isOpen then Err(AlreadyOpen)
    else if |devices| == 0 || |devices| > 255 then Err(DeviceCount)
    else if durationMs == 0 then Err(ZeroDuration)
    else
      var head := FileHead(devices, durationMs);
      Ok(WriterState(true, head, IdsOf(devices), durationMs, Stats(0, 0, |head|, 0), [], None,
                     Start(|devices|), 0, |head|))
  }

  function FrameFlushed(w: WriterState): (r: WriterState) {
    if w.frame == [] then w
    else
      var next := w.offset + FRAME_HEADER_SIZE + |w.frame|;
      w.(file := w.file + FrameHead(w.offset, |w.frame|, w.frameIndex) + w.frame,
         offset := next, stats := w.stats.(bytes := next, frames := w.stats.frames + 1),
         frameIndex := w.frameIndex + 1, frame := [], frameSlot := None)
  }

  function DurationNs(w: WriterState): (n: nat) {
    w.durationMs * 1_000_000
  }

  /** A writer that is open for some number of devices; every writer the operations produce is one. */
  predicate Valid(w: WriterState) {
    w.isOpen ==> |w.line.clocks| == |w.lidarIds| && w.durationMs > 0
  }

  /** The first `n` spherical samples of `data`, converted. */
  function Converted(convert: Converter, data: seq<Byte>, n: nat): (s: seq<Byte>)
    requires 10 * n <= |data|
    ensures |s| == 14 * n
  {
    if n == 0 then [] else Converted(convert, data, n - 1) + convert(data[10 * (n - 1)..10 * n])
  }

  /** The recorded type and points of a packet; an IMU packet has none. */
  function Recorded(convert: Converter, p: RawPacket): (r: Option<(DataType, seq<Byte>)>) {
    match p.header.dataType
    case Imu => None
    case Spherical => Some((Cartesian32, Converted(convert, p.data, |p.data| / 10)))
    case _ => Some((p.header.dataType, p.data))
  }

  function PackageOf(lidarId: U32, h: PacketHeader, r: (DataType, seq<Byte>)): (p: Package) {
    Package(lidarId, h.timeType, h.timestampNs, h.udpCnt, r.0, h.frameCnt, r.1)
  }

  /** The package goes into the open frame, or a new one if its slot is later. */
  function Appended(w: WriterState, p: Package, line: Line, slot: nat): (r: WriterState) {
    var late := w.frameSlot.Some? && slot > w.frameSlot.value;
    var f := if late then FrameFlushed(w) else w;
    var opens := f.frameSlot.None? || slot > f.frameSlot.value;
    f.(line := line, frameSlot := if opens then Some(slot) else f.frameSlot,
       frame := f.frame + PackageBytes(p), stats := f.stats.(packets := f.stats.packets + 1))
  }

  function Written(convert: Converter, w: WriterState, device: nat, p: RawPacket)
    : (r: (WriterState, Result<bool, WriteError>))
    requires Valid(w)
    ensures Valid(r.0)
  {
    if !w.isOpen then (w, Err(NotOpen))
    else if device >= |w.lidarIds| then (w, Err(DeviceIndex))
    else
      match Recorded(convert, p)
      case None => (w.(stats := w.stats.(ignored := w.stats.ignored + 1)), Ok(false))
      case Some(rec) =>
        var ts := p.header.timestampNs;
        (Appended(w, PackageOf(w.lidarIds[device], p.header, rec), Placed(w.line, device, ts),
                  Slot(TimeOf(w.line, device, ts), DurationNs(w))), Ok(true))
  }

  function Closed(w: WriterState): (r: WriterState)
    ensures Valid(r)
  {
    if !w.isOpen then w else FrameFlushed(w).(isOpen := false)
  }

  // ---------------------------------------------------------------------------
  // The writer
  // ---------------------------------------------------------------------------

  class Lvx2Writer {
    const convert: Converter
    var isOpen: bool
    var file: seq<Byte>
    var lidarIds: seq<U32>
    var durationMs: U32
    var stats: Stats
    var frame: seq<Byte>
    var frameSlot: Option<nat>
    var clocks: seq<Clock>
    var latestNs: nat
    var frameIndex: nat
    var offset: nat

    constructor (convert: Converter)
      ensures View() == CLOSED && this.convert == convert
    {
      this.convert := convert;
      isOpen, file, lidarIds, durationMs, stats := false, [], [], 50, Stats(0, 0, 0, 0);
      frame, frameSlot, clocks, latestNs, frameIndex, offset := [], None, [], 0, 0, 0;
    }

    function View(): WriterState
      reads this
    {
      WriterState(isOpen, file, lidarIds, durationMs, stats, frame, frameSlot, Line(clocks, latestNs),
                  frameIndex, offset)
    }

    /** Lvx2Writer::open. */
    method Open(devices: seq<Device>, frameDurationMs: U32) returns (r: Result<(), WriteError>)
      modifies this
      ensures match Opened(old(View()), devices, frameDurationMs)
              case Ok(w) => r == Ok(()) && View() == w
              case Err(e) => r == Err(e) && View() == old(View())
    {
      hide FileHead, IdsOf, Start, DeviceBlock, FileHeader;
      if isOpen { return Err(AlreadyOpen); }
      if |devices| == 0 || |devices| > 255 { return Err(DeviceCount); }
      if frameDurationMs == 0 { return Err(ZeroDuration); }
      var head, ids := Describe(devices, frameDurationMs);
      Begin(head, ids, frameDurationMs);
      r := Ok(());
    }

    /** The last step of open(): a new file of which only the head is written. */
    method Begin(head: seq<Byte>, ids: seq<U32>, frameDurationMs: U32)
      modifies this
      ensures View() == WriterState(true, head, ids, frameDurationMs, Stats(0, 0, |head|, 0), [], None,
                                    Start(|ids|), 0, |head|)
    {
      isOpen, file, lidarIds, durationMs := true, head, ids, frameDurationMs;
      stats := Stats(0, 0, |head|, 0);
      frame, frameSlot := [], None;
      clocks, latestNs := Start(|ids|).clocks, 0;
      frameIndex, offset := 0, |head|;
    }

    /** The file header and device infos, and the identifiers of the devices. */
    method Describe(devices: seq<Device>, frameDurationMs: U32) returns (head: seq<Byte>, ids: seq<U32>)
      requires |devices| < 256
      ensures head == FileHead(devices, frameDurationMs) && ids == IdsOf(devices)
    {
      hide FileHeader, DeviceBytes;
      head := FileHeader(frameDurationMs, |devices|);
      ids := [];
      var i := 0;
      while i < |devices|
        invariant 0 <= i <= |devices|
        invariant head == FileHeader(frameDurationMs, |devices|) + DeviceBlock(devices[..i])
        invariant ids == IdsOf(devices[..i])
      {
        assert devices[..i + 1][..i] == devices[..i];
        Assoc(FileHeader(frameDurationMs, |devices|), DeviceBlock(devices[..i]), DeviceBytes(devices[i]));
        head := head + DeviceBytes(devices[i]);
        ids := ids + [devices[i].lidarId];
        i := i + 1;
      }
      assert devices[..i] == devices;
    }

    /** The loop over the samples of a spherical packet. */
    method Convert(data: seq<Byte>) returns (scratch: seq<Byte>)
      ensures scratch == Converted(convert, data, |data| / 10)
    {
      var n, i := |data| / 10, 0;
      scratch := [];
      while i < n
        invariant 0 <= i <= n
        invariant scratch == Converted(convert, data, i)
      {
        scratch := scratch + convert(data[10 * i..10 * (i + 1)]);
        i := i + 1;
      }
    }

    /** flush_frame. */
    method FlushFrame()
      modifies this
      ensures View() == FrameFlushed(old(View()))
    {
      if frame == [] { return; }
      var next := offset + FRAME_HEADER_SIZE + |frame|;
      file := file + FrameHead(offset, |frame|, frameIndex);
      file := file + frame;
      offset := next;
      stats := stats.(bytes := next, frames := stats.frames + 1);
      frameIndex := frameIndex + 1;
      frame, frameSlot := [], None;
    }

    /** The recording time of a package; the device's clock joins the time line where it has to. */
    method Place(device: nat, ts: U64) returns (timeNs: int)
      requires device < |clocks|
      modifies this`clocks, this`latestNs
      ensures timeNs == TimeOf(old(View()).line, device, ts)
      ensures View().line == Placed(old(View()).line, device, ts)
    {
      var clock := clocks[device];
      var moved := if ts > clock.prev then ts - clock.prev else clock.prev - ts;
      if clock.base.None? || moved > CLOCK_JUMP_NS {
        clock := clock.(base := Some(TimeMapper.ToU64(ts - latestNs)));
      }
      clock := clock.(prev := ts);
      clocks := clocks[device := clock];
      timeNs := Signed(TimeMapper.ToU64(ts - clock.base.value));
      if timeNs > latestNs { latestNs := timeNs; }
    }

    /** Lvx2Writer::write. */
    method Write(device: nat, p: RawPacket) returns (r: Result<bool, WriteError>)
      requires Valid(View())
      modifies this
      ensures (View(), r) == Written(convert, old(View()), device, p)
      ensures Valid(View())
    {
      hide Converted, Appended, TimeOf, Placed, Slot;
      if !isOpen { return Err(NotOpen); }
      if device >= |lidarIds| { return Err(DeviceIndex); }
      var dataType, points := p.header.dataType, p.data;
      if dataType == Imu {
        stats := stats.(ignored := stats.ignored + 1);
        return Ok(false);
      }
      if dataType == Spherical {
        points := Convert(p.data);
        dataType := Cartesian32;
      }
      Add(device, PackageOf(lidarIds[device], p.header, (dataType, points)));
      r := Ok(true);
    }

    /** The second half of write(): the package goes into the frame of its recording time. */
    method Add(device: nat, p: Package)
      requires Valid(View()) && isOpen && device < |lidarIds|
      modifies this
      ensures View() == Appended(old(View()), p, Placed(old(View()).line, device, p.timestampNs),
                                 Slot(TimeOf(old(View()).line, device, p.timestampNs), DurationNs(old(View()))))
    {
      hide PackageBytes, FrameHead, TimeOf, Placed, Slot;
      var timeNs := Place(device, p.timestampNs);
      var slot := Slot(timeNs, durationMs * 1_000_000);
      if frameSlot.Some? && slot > frameSlot.value { FlushFrame(); }
      if frameSlot.None? || slot > frameSlot.value { frameSlot := Some(slot); }
      frame := frame + PackageBytes(p);
      stats := stats.(packets := stats.packets + 1);
    }

    /** Lvx2Writer::close. */
    method Close()
      modifies this
      ensures View() == Closed(old(View()))
    {
      if isOpen {
        FlushFrame();
        isOpen := false;
      }
    }
  }
}
