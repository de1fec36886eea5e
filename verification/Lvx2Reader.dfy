/** The lvx2 reader (src/lvx2.cpp) over the bytes of a file. */
module Lvx2Reader {
  import opened Bytes
  import opened Lvx2Format
  import opened Packets
  import opened TimeMapper
  import opened Wrappers

  datatype ReadError = BadFile | UnsupportedDataType | NotOpen

  /** A package read from the file. */
  datatype LvxPacket = LvxPacket(frameIndex: U64, lidarType: Byte, package: Package)

  /** `at` is the position in the file, `pos` the next package in the body of the current frame. */
  datatype ReaderState = ReaderState(
    file: seq<Byte>, at: nat, frame: seq<Byte>, pos: nat, frameIndex: U64, frameOffset: U64,
    truncated: bool, done: bool)

  predicate Valid(r: ReaderState) {
    r.at <= |r.file| && r.pos <= |r.frame|
  }

  function U64At(s: seq<Byte>, offset: nat): (v: U64)
    requires offset + 8 <= |s|
    ensures v == ReadAt(s, offset, 8)
  {
    ReadBound(s, offset, 8);
    Ranges();
    ReadAt(s, offset, 8)
  }

  function Min(a: nat, b: nat): nat {
    if a < b then a else b
  }

  /** load_frame: whether there is another frame. */
  function Loaded(r: ReaderState): (s: (ReaderState, Result<bool, ReadError>))
    requires Valid(r)
    ensures Valid(s.0) && s.0.file == r.file && s.0.done == r.done && s.0.at >= r.at
    ensures s.1 == Ok(true) ==> s.0.at > r.at
  {
    if r.at == |r.file| then (r, Ok(false))
    else if r.at + FRAME_HEADER_SIZE > |r.file| then (r.(at := |r.file|, truncated := true), Ok(false))
    else
      var h := r.file[r.at..r.at + FRAME_HEADER_SIZE];
      var current, next, body := U64At(h, 0), U64At(h, 8), r.at + FRAME_HEADER_SIZE;
      if current != r.frameOffset || next < ToU64(current + FRAME_HEADER_SIZE) then
        (r.(at := body, frameIndex := U64At(h, 16)), Err(BadFile))
      else
        var size := ToU64(next - current - FRAME_HEADER_SIZE);
        var end := Min(body + size, |r.file|);
        (r.(at := end, frame := r.file[body..end], pos := 0, frameIndex := U64At(h, 16), frameOffset := next,
            truncated := r.truncated || end < body + size), Ok(true))
  }

  /** The package whose header is `h`, without its points, and the length of its points. */
  function ParsedHead(h: seq<Byte>): (r: Result<(Byte, Package, U32), ReadError>)
    requires |h| == PACKAGE_HEADER_SIZE
  {
    ReadBound(h, 1, 4); ReadBound(h, 7, 8); ReadBound(h, 15, 2); ReadBound(h, 18, 4);
    Ranges();
    if h[17] != 1 && h[17] != 2 then Err(UnsupportedDataType)
    else
      var dataType := if h[17] == 1 then Cartesian32 else Cartesian16;
      var length := ReadAt(h, 18, 4);
      if length % SampleSize(dataType) != 0 then Err(BadFile)
      else
        Ok((h[5], Package(ReadAt(h, 1, 4), h[6], ReadAt(h, 7, 8), ReadAt(h, 15, 2), dataType, h[22], []), length))
  }

  /** next_packet: the next package, or None at the end of the file. */
  function Next(r: ReaderState): (s: (ReaderState, Result<Option<LvxPacket>, ReadError>))
    requires Valid(r)
    ensures Valid(s.0) && s.0.file == r.file && s.0.at >= r.at
    ensures s.1.Ok? && s.1.value.Some? && s.0.at == r.at ==> |s.0.frame| - s.0.pos < |r.frame| - r.pos
    decreases |r.file| - r.at
  {
    if r.done then (r, Ok(None))
    else if r.pos + PACKAGE_HEADER_SIZE > |r.frame| then
      var (l, more) := Loaded(r.(truncated := r.truncated || r.pos != |r.frame|));
      match more
      case Err(e) => (l, Err(e))
      case Ok(false) => (l.(done := true), Ok(None))
      case Ok(true) => Next(l)
    else
      var body := r.pos + PACKAGE_HEADER_SIZE;
      match ParsedHead(r.frame[r.pos..body])
      case Err(e) => (r, Err(e))
      case Ok((lidarType, p, length)) =>
        if body + length > |r.frame| then (r.(truncated := true, done := true), Ok(None))
        else
          (r.(pos := body + length),
           Ok(Some(LvxPacket(r.frameIndex, lidarType, p.(points := r.frame[body..body + length])))))
  }

  /** Everything a loop over next_packet sees: the packages, and how it ends. */
  datatype Reading = Reading(packets: seq<LvxPacket>, end: Result<ReaderState, ReadError>)

  function ReadAll(r: ReaderState): (s: Reading)
    requires Valid(r)
    decreases |r.file| - r.at, |r.frame| - r.pos
  {
    var (next, result) := Next(r);
    match result
    case Err(e) => Reading([], Err(e))
    case Ok(None) => Reading([], Ok(next))
    case Ok(Some(p)) =>
      var rest := ReadAll(next);
      Reading([p] + rest.packets, rest.end)
  }

  // ---------------------------------------------------------------------------
  // Opening
  // ---------------------------------------------------------------------------

  function ReadDevices(block: seq<Byte>, n: nat): (devices: seq<Device>)
    requires DEVICE_INFO_SIZE * n <= |block|
    ensures |devices| == n
  {
    if n == 0 then []
    else ReadDevices(block, n - 1) + [ReadDevice(block[DEVICE_INFO_SIZE * (n - 1)..DEVICE_INFO_SIZE * n])]
  }

  datatype OpenFile = OpenFile(durationMs: U32, devices: seq<Device>, reader: ReaderState)

  function Opened(file: seq<Byte>): (r: Result<OpenFile, ReadError>)
    ensures r.Ok? ==> Valid(r.value.reader)
  {
    if |file| < FILE_HEADER_SIZE || file[..16] != SIGNATURE || ReadAt(file, 20, 4) != MAGIC || file[16] != 2 then
      Err(BadFile)
    else
      ReadBound(file, 24, 4);
      Ranges();
      var n: Byte := file[28];
      var start := FILE_HEADER_SIZE + DEVICE_INFO_SIZE * n;
      if |file| < start then Err(BadFile)
      else
        Ok(OpenFile(ReadAt(file, 24, 4), ReadDevices(file[FILE_HEADER_SIZE..start], n),
                    ReaderState(file, start, [], 0, 0, start, false, false)))
  }

  // ---------------------------------------------------------------------------
  // The reader
  // ---------------------------------------------------------------------------

  class Lvx2Reader {
    var isOpen: bool
    var file: seq<Byte>
    var durationMs: U32
    var devices: seq<Device>
    var at: nat
    var frame: seq<Byte>
    var pos: nat
    var frameIndex: U64
    var frameOffset: U64
    var truncated: bool
    var done: bool

    constructor ()
      ensures !isOpen && Valid(View())
    {
      isOpen, file, durationMs, devices := false, [], 0, [];
      at, frame, pos, frameIndex, frameOffset, truncated, done := 0, [], 0, 0, 0, false, false;
    }

    function View(): ReaderState
      reads this
    {
      ReaderState(file, at, frame, pos, frameIndex, frameOffset, truncated, done)
    }

    /** Lvx2Reader::open on a file of these bytes. */
    method Open(bytes: seq<Byte>) returns (r: Result<(), ReadError>)
      modifies this
      ensures match Opened(bytes)
              case Err(e) => r == Err(e) && !isOpen && Valid(View())
              case Ok(o) =>
                && r == Ok(()) && isOpen && View() == o.reader
                && durationMs == o.durationMs && devices == o.devices
    {
      hide ReadDevices, ReadAt;
      Rewind(bytes);
      if |bytes| < FILE_HEADER_SIZE || bytes[..16] != SIGNATURE { return Err(BadFile); }
      if ReadAt(bytes, 20, 4) != MAGIC { return Err(BadFile); }
      if bytes[16] != 2 { return Err(BadFile); }
      ReadBound(bytes, 24, 4);
      Ranges();
      var n, start: nat := bytes[28], FILE_HEADER_SIZE + DEVICE_INFO_SIZE * bytes[28];
      if |bytes| < start { return Err(BadFile); }
      devices := ReadInfos(bytes[FILE_HEADER_SIZE..start], n);
      durationMs, at, frameOffset, isOpen := ReadAt(bytes, 24, 4), start, start, true;
      r := Ok(());
    }

    /** The state of a reader before open() has looked at the file. */
    method Rewind(bytes: seq<Byte>)
      modifies this
      ensures !isOpen && View() == ReaderState(bytes, 0, [], 0, 0, 0, false, false)
    {
      isOpen, file, at, frame, pos := false, bytes, 0, [], 0;
      frameIndex, frameOffset, truncated, done := 0, 0, false, false;
    }

    method ReadInfos(block: seq<Byte>, n: nat) returns (infos: seq<Device>)
      requires DEVICE_INFO_SIZE * n <= |block|
      ensures infos == ReadDevices(block, n)
    {
      var i := 0;
      infos := [];
      while i < n
        invariant 0 <= i <= n
        invariant infos == ReadDevices(block, i)
      {
        infos := infos + [ReadDevice(block[DEVICE_INFO_SIZE * i..DEVICE_INFO_SIZE * (i + 1)])];
        i := i + 1;
      }
    }

    /** load_frame. */
    method LoadFrame() returns (r: Result<bool, ReadError>)
      requires Valid(View())
      modifies this`at, this`frame, this`pos, this`frameIndex, this`frameOffset, this`truncated
      ensures (View(), r) == Loaded(old(View()))
    {
      hide ReadAt, ToU64;
      var n := |file| - at;
      if n == 0 { return Ok(false); }
      if n < FRAME_HEADER_SIZE {
        at, truncated := |file|, true;
        return Ok(false);
      }
      var h := file[at..at + FRAME_HEADER_SIZE];
      at := at + FRAME_HEADER_SIZE;
      var current, next := U64At(h, 0), U64At(h, 8);
      frameIndex := U64At(h, 16);
      if current != frameOffset { return Err(BadFile); }
      if next < ToU64(current + FRAME_HEADER_SIZE) { return Err(BadFile); }
      var size := ToU64(next - current - FRAME_HEADER_SIZE);
      var end := Min(at + size, |file|);
      if end < at + size { truncated := true; }
      frame, at, frameOffset, pos := file[at..end], end, next, 0;
      r := Ok(true);
    }

    /** Lvx2Reader::next_packet. */
    method NextPacket() returns (r: Result<Option<LvxPacket>, ReadError>)
      requires Valid(View())
      modifies this
      ensures Valid(View()) && isOpen == old(isOpen) && devices == old(devices) && durationMs == old(durationMs)
      ensures if isOpen then (View(), r) == Next(old(View())) else r == Err(NotOpen) && View() == old(View())
    {
      hide Loaded, ParsedHead;
      if !isOpen { return Err(NotOpen); }
      while !done
        invariant Valid(View()) && file == old(file) && isOpen
        invariant devices == old(devices) && durationMs == old(durationMs)
        invariant Next(View()) == Next(old(View()))
        decreases |file| - at
      {
        if pos + PACKAGE_HEADER_SIZE > |frame| {
          if pos != |frame| { truncated := true; }
          var more := LoadFrame();
          if more.Err? { return Err(more.error); }
          if !more.value {
            done := true;
            return Ok(None);
          }
        } else {
          var body := pos + PACKAGE_HEADER_SIZE;
          var head := ParsedHead(frame[pos..body]);
          if head.Err? { return Err(head.error); }
          var (lidarType, p, length) := head.value;
          if body + length > |frame| {
            truncated, done := true, true;
            return Ok(None);
          }
          pos := body + length;
          return Ok(Some(LvxPacket(frameIndex, lidarType, p.(points := frame[body..pos]))));
        }
      }
      r := Ok(None);
    }
  }
}
