/**
  The lvx2 file format (src/lvx2.cpp; "LVX2 Specifications 2023.06 v1.0") as bytes: a file header,
  a block of device infos, then a chain of frames of packages.
*/
module Lvx2Format {
  import opened Bytes
  import opened Packets

  const FILE_HEADER_SIZE := 29
  const DEVICE_INFO_SIZE := 63
  const FRAME_HEADER_SIZE := 24
  const PACKAGE_HEADER_SIZE := 27
  const MAGIC: U32 := 0xAC0E_A767

  /** "livox_tech", padded to 16 bytes. */
  const SIGNATURE: seq<Byte> := [0x6C, 0x69, 0x76, 0x6F, 0x78, 0x5F, 0x74, 0x65, 0x63, 0x68, 0, 0, 0, 0, 0, 0]

  // ---------------------------------------------------------------------------
  // Packages
  // ---------------------------------------------------------------------------

  /** One package; the format knows the two Cartesian data types. */
  datatype Package = Package(
    lidarId: U32, timeType: Byte, timestampNs: U64, udpCnt: U16, dataType: DataType,
    frameCnt: Byte, points: seq<Byte>)

  function TypeCode(t: DataType): (c: Byte) {
    if t == Cartesian32 then 1 else 2
  }

  /** A package the reader accepts: a recorded type, whole points, and a length that fits its field. */
  predicate Readable(p: Package) {
    && (p.dataType == Cartesian32 || p.dataType == Cartesian16)
    && |p.points| % SampleSize(p.dataType) == 0
    && |p.points| < 0x1_0000_0000
  }

  function PackageHead(p: Package): (s: seq<Byte>)
    ensures |s| == PACKAGE_HEADER_SIZE
  {
    [0] + LittleEndian(p.lidarId, 4) + [0, p.timeType] + LittleEndian(p.timestampNs, 8)
    + LittleEndian(p.udpCnt, 2) + [TypeCode(p.dataType)] + LittleEndian(|p.points|, 4) + [p.frameCnt, 0, 0, 0, 0]
  }

  function PackageBytes(p: Package): (s: seq<Byte>)
    ensures |s| == PACKAGE_HEADER_SIZE + |p.points|
  {
    PackageHead(p) + p.points
  }

  function Body(packages: seq<Package>): (s: seq<Byte>) {
    if packages == [] then [] else Body(packages[..|packages| - 1]) + PackageBytes(packages[|packages| - 1])
  }

  /** What a package header reads back as. */
  lemma HeadFields(p: Package)
    requires |p.points| < 0x1_0000_0000
    ensures var h := PackageHead(p);
            && ReadAt(h, 1, 4) == p.lidarId
            && h[5] == 0 && h[6] == p.timeType
            && ReadAt(h, 7, 8) == p.timestampNs
            && ReadAt(h, 15, 2) == p.udpCnt
            && h[17] == TypeCode(p.dataType)
            && ReadAt(h, 18, 4) == |p.points|
            && h[22] == p.frameCnt
            && h[0] == 0 && h[23..27] == [0, 0, 0, 0]
  {
    var h := PackageHead(p);
    Ranges();
    assert h[1..5] == LittleEndian(p.lidarId, 4);
    ReadsWhatWasWritten(p.lidarId, 4);
    assert h[7..15] == LittleEndian(p.timestampNs, 8);
    ReadsWhatWasWritten(p.timestampNs, 8);
    assert h[15..17] == LittleEndian(p.udpCnt, 2);
    ReadsWhatWasWritten(p.udpCnt, 2);
    assert h[18..22] == LittleEndian(|p.points|, 4);
    ReadsWhatWasWritten(|p.points|, 4);
  }

  // ---------------------------------------------------------------------------
  // Frames
  // ---------------------------------------------------------------------------

  function FrameHead(offset: nat, bodySize: nat, index: nat): (s: seq<Byte>)
    ensures |s| == FRAME_HEADER_SIZE
  {
    LittleEndian(offset, 8) + LittleEndian(offset + FRAME_HEADER_SIZE + bodySize, 8) + LittleEndian(index, 8)
  }

  function FrameBytes(offset: nat, index: nat, packages: seq<Package>): (s: seq<Byte>)
    ensures |s| == FRAME_HEADER_SIZE + |Body(packages)|
  {
    FrameHead(offset, |Body(packages)|, index) + Body(packages)
  }

  /** The chain of frames after the `start` bytes of file header and device infos. */
  function Chain(start: nat, frames: seq<seq<Package>>): (s: seq<Byte>) {
    if frames == [] then []
    else
      var n := |frames| - 1;
      var before := Chain(start, frames[..n]);
      before + FrameBytes(start + |before|, n, frames[n])
  }

  lemma FrameHeadFields(offset: nat, bodySize: nat, index: nat)
    requires offset + FRAME_HEADER_SIZE + bodySize < 0x1_0000_0000_0000_0000
    requires index < 0x1_0000_0000_0000_0000
    ensures var h := FrameHead(offset, bodySize, index);
            && ReadAt(h, 0, 8) == offset
            && ReadAt(h, 8, 8) == offset + FRAME_HEADER_SIZE + bodySize
            && ReadAt(h, 16, 8) == index
  {
    var h := FrameHead(offset, bodySize, index);
    Ranges();
    assert h[0..8] == LittleEndian(offset, 8);
    ReadsWhatWasWritten(offset, 8);
    assert h[8..16] == LittleEndian(offset + FRAME_HEADER_SIZE + bodySize, 8);
    ReadsWhatWasWritten(offset + FRAME_HEADER_SIZE + bodySize, 8);
    assert h[16..24] == LittleEndian(index, 8);
    ReadsWhatWasWritten(index, 8);
  }

  // ---------------------------------------------------------------------------
  // File header and device infos
  // ---------------------------------------------------------------------------

  /** A device info; `pose` holds the six floats of the extrinsic as their 24 bytes. */
  datatype DeviceInfo = DeviceInfo(
    lidarSn: seq<Byte>, hubSn: seq<Byte>, lidarId: U32, lidarType: Byte, deviceType: Byte,
    extrinsicEnable: bool, pose: seq<Byte>)

  type Device = d: DeviceInfo | |d.pose| == 24 witness DeviceInfo([], [], 0, 0, 9, false, seq(24, _ => 0))

  /** put_fixed: at most `n` bytes of `s`, zero padded. */
  function Padded(s: seq<Byte>, n: nat): (r: seq<Byte>)
    ensures |r| == n
  {
    if |s| >= n then s[..n] else s + seq(n - |s|, _ => 0)
  }

  /** get_fixed: the bytes before the first zero. */
  function Unpadded(s: seq<Byte>): (r: seq<Byte>) {
    if s == [] || s[0] == 0 then [] else [s[0]] + Unpadded(s[1..])
  }

  function DeviceBytes(d: Device): (s: seq<Byte>)
    ensures |s| == DEVICE_INFO_SIZE
  {
    Padded(d.lidarSn, 16) + Padded(d.hubSn, 16) + LittleEndian(d.lidarId, 4)
    + [d.lidarType, d.deviceType, if d.extrinsicEnable then 1 else 0] + d.pose
  }

  function DeviceBlock(devices: seq<Device>): (s: seq<Byte>)
    ensures |s| == DEVICE_INFO_SIZE * |devices|
  {
    if devices == [] then [] else DeviceBlock(devices[..|devices| - 1]) + DeviceBytes(devices[|devices| - 1])
  }

  function FileHeader(durationMs: U32, deviceCount: Byte): (s: seq<Byte>)
    ensures |s| == FILE_HEADER_SIZE
  {
    SIGNATURE + [2, 0, 0, 0] + LittleEndian(MAGIC, 4) + LittleEndian(durationMs, 4) + [deviceCount]
  }

  /** A whole file. */
  function FileBytes(durationMs: U32, devices: seq<Device>, frames: seq<seq<Package>>): (s: seq<Byte>)
    requires |devices| < 256
  {
    FileHeader(durationMs, |devices|) + DeviceBlock(devices)
    + Chain(FILE_HEADER_SIZE + DEVICE_INFO_SIZE * |devices|, frames)
  }

  lemma FileHeaderFields(durationMs: U32, deviceCount: Byte)
    ensures var h := FileHeader(durationMs, deviceCount);
            && h[..16] == SIGNATURE
            && h[16] == 2
            && ReadAt(h, 20, 4) == MAGIC
            && ReadAt(h, 24, 4) == durationMs
            && h[28] == deviceCount
  {
    var h := FileHeader(durationMs, deviceCount);
    Ranges();
    assert h[20..24] == LittleEndian(MAGIC, 4);
    ReadsWhatWasWritten(MAGIC, 4);
    assert h[24..28] == LittleEndian(durationMs, 4);
    ReadsWhatWasWritten(durationMs, 4);
  }

  /** What a device info reads back as: its strings as 16 bytes hold them. */
  function Stored(d: Device): (r: Device) {
    d.(lidarSn := Unpadded(Padded(d.lidarSn, 16)), hubSn := Unpadded(Padded(d.hubSn, 16)))
  }

  function ReadDevice(s: seq<Byte>): (d: Device)
    requires |s| == DEVICE_INFO_SIZE
  {
    ReadBound(s, 32, 4);
    Ranges();
    DeviceInfo(Unpadded(s[0..16]), Unpadded(s[16..32]), ReadAt(s, 32, 4), s[36], s[37], s[38] != 0, s[39..63])
  }

  lemma DeviceReadsBack(d: Device)
    ensures ReadDevice(DeviceBytes(d)) == Stored(d)
  {
    var s := DeviceBytes(d);
    Ranges();
    assert s[0..16] == Padded(d.lidarSn, 16);
    assert s[16..32] == Padded(d.hubSn, 16);
    assert s[32..36] == LittleEndian(d.lidarId, 4);
    ReadsWhatWasWritten(d.lidarId, 4);
    assert s[39..63] == d.pose;
  }

  /** A string without zero bytes of at most 16 bytes is stored as it is. */
  lemma {:induction false} PlainStringIsKept(s: seq<Byte>, n: nat)
    requires |s| <= n && 0 !in s
    ensures Unpadded(Padded(s, n)) == s
  {
    if s != [] {
      PlainStringIsKept(s[1..], n - 1);
      assert Padded(s, n)[1..] == Padded(s[1..], n - 1);
    }
  }

  /** get_fixed gives what comes before the first zero byte. */
  lemma {:induction false} UnpaddedExactly(s: seq<Byte>)
    ensures Unpadded(s) <= s && 0 !in Unpadded(s)
    ensures |Unpadded(s)| < |s| ==> s[|Unpadded(s)|] == 0
  {
    if s != [] && s[0] != 0 { UnpaddedExactly(s[1..]); }
  }

  /** A string is stored up to its first zero byte and up to the size of the field. */
  lemma {:induction false} StoredString(s: seq<Byte>, n: nat)
    ensures Unpadded(Padded(s, n)) == Unpadded(if |s| < n then s else s[..n])
  {
    if |s| < n {
      if s == [] {
        assert Padded(s, n)[0] == 0;
      } else {
        StoredString(s[1..], n - 1);
        assert Padded(s, n)[1..] == Padded(s[1..], n - 1);
      }
    }
  }
}
