/** Encoders and decoders of the key values the device logic reads (src/keys.cpp). */
module Keys {
  import opened Bytes
  import opened Division
  import opened Packets
  import opened Wrappers

  const PCL_DATA_TYPE: U16 := 0x0000
  const PATTERN_MODE: U16 := 0x0001
  const STATE_INFO_HOST: U16 := 0x0005
  const POINT_CLOUD_HOST: U16 := 0x0006
  const IMU_HOST: U16 := 0x0007
  const FOV_CFG0: U16 := 0x0015
  const FOV_CFG1: U16 := 0x0016
  const FOV_CFG_EN: U16 := 0x0017
  const DETECT_MODE: U16 := 0x0018
  const IMU_DATA_EN: U16 := 0x001C
  const TIME_FILTER: U16 := 0x0026
  const IMU_SENSOR_CFG: U16 := 0x002B
  const CUR_WORK_STATE: U16 := 0x8006
  const CORE_TEMP: U16 := 0x8007
  const POWERUP_CNT: U16 := 0x8008
  const LOCAL_TIME_NOW: U16 := 0x8009
  const LAST_SYNC_TIME: U16 := 0x800A
  const TIME_OFFSET: U16 := 0x800B
  const TIME_SYNC_TYPE: U16 := 0x800C
  const LIDAR_DIAG_STATUS: U16 := 0x800E
  const FW_TYPE: U16 := 0x8010
  const HMS_CODE: U16 := 0x8011

  // ---------------------------------------------------------------------------
  // Scalars
  // ---------------------------------------------------------------------------

  function Unsigned(v: seq<Byte>, n: nat): (r: Option<nat>) {
    if |v| != n then None else Some(ReadAt(v, 0, n))
  }

  /** The two's complement value of `n` bytes. */
  function ToSigned(v: nat, n: nat): (r: int) {
    if 2 * v < Range(n) then v else v - Range(n)
  }

  function FromSigned(v: int, n: nat): (r: nat)
    requires 0 <= 2 * v + Range(n) && 2 * v < Range(n)
    ensures r < Range(n)
  {
    if v >= 0 then v else v + Range(n)
  }

  function Signed(v: seq<Byte>, n: nat): (r: Option<int>) {
    if |v| != n then None else Some(ToSigned(ReadAt(v, 0, n), n))
  }

  /** One byte up to `max`. */
  function UpTo(v: seq<Byte>, max: Byte): (r: Option<Byte>) {
    if |v| != 1 || v[0] > max then None else Some(v[0])
  }

  // ---------------------------------------------------------------------------
  // Values of the status push
  // ---------------------------------------------------------------------------

  /** The raw WorkState value. */
  function WorkState(v: seq<Byte>): (r: Option<Byte>) {
    if |v| == 1 && v[0] in {0x01, 0x02, 0x04, 0x05, 0x06, 0x08, 0x09} then Some(v[0]) else None
  }

  datatype Diag = Diag(system: nat, scan: nat, ranging: nat, communication: nat)

  const NORMAL := Diag(0, 0, 0, 0)

  function DiagStatus(v: seq<Byte>): (r: Option<Diag>) {
    if |v| != 2 then None
    else
      var d := Diag(v[0] % 16, v[0] / 16, v[1] % 16, v[1] / 16);
      if d.system > 3 || d.scan > 3 || d.ranging > 3 || d.communication > 3 then None else Some(d)
  }

  function HmsCodes(v: seq<Byte>): (r: Option<seq<nat>>)
    ensures r.Some? ==> |r.value| == 8
  {
    if |v| != 32 then None
    else Some([ReadAt(v, 0, 4), ReadAt(v, 4, 4), ReadAt(v, 8, 4), ReadAt(v, 12, 4),
               ReadAt(v, 16, 4), ReadAt(v, 20, 4), ReadAt(v, 24, 4), ReadAt(v, 28, 4)])
  }

  // ---------------------------------------------------------------------------
  // Values of the host setup
  // ---------------------------------------------------------------------------

  /** A point-cloud data type; IMU is not one. */
  function PclType(v: seq<Byte>): (r: Option<DataType>) {
    match UpTo(v, 3)
    case Some(1) => Some(Cartesian32)
    case Some(2) => Some(Cartesian16)
    case Some(3) => Some(Spherical)
    case _ => None
  }

  function EncodePclType(t: DataType): (v: seq<Byte>) {
    match t
    case Imu => [0]
    case Cartesian32 => [1]
    case Cartesian16 => [2]
    case Spherical => [3]
  }

  type I32 = v: int | -0x8000_0000 <= v < 0x8000_0000

  datatype Fov = Fov(yawStart: I32, yawStop: I32, pitchStart: I32, pitchStop: I32, reserved: U32)

  function I32At(v: seq<Byte>, offset: nat): (r: I32)
    requires offset + 4 <= |v|
    ensures r == ToSigned(ReadAt(v, offset, 4), 4)
  {
    ReadBound(v, offset, 4);
    Ranges();
    ToSigned(ReadAt(v, offset, 4), 4)
  }

  function EncodeI32(x: I32): (v: seq<Byte>)
    ensures |v| == 4
  {
    Ranges();
    LittleEndian(FromSigned(x, 4), 4)
  }

  function FovConfig(v: seq<Byte>): (r: Option<Fov>) {
    if |v| != 20 then None
    else
      ReadBound(v, 16, 4);
      Ranges();
      Some(Fov(I32At(v, 0), I32At(v, 4), I32At(v, 8), I32At(v, 12), ReadAt(v, 16, 4)))
  }

  function EncodeFov(f: Fov): (v: seq<Byte>)
    ensures |v| == 20
  {
    EncodeI32(f.yawStart) + EncodeI32(f.yawStop) + EncodeI32(f.pitchStart) + EncodeI32(f.pitchStop)
    + LittleEndian(f.reserved, 4)
  }

  predicate FovInRange(f: Fov) {
    && 0 <= f.yawStart <= f.yawStop <= 360
    && -10 <= f.pitchStart <= f.pitchStop <= 60
  }

  datatype FovEnable = FovEnable(fov0: bool, fov1: bool)

  function FovEnableMask(v: seq<Byte>): (r: Option<FovEnable>) {
    match UpTo(v, 3)
    case None => None
    case Some(u) => Some(FovEnable(u % 2 == 1, u / 2 == 1))
  }

  function EncodeFovEnable(e: FovEnable): (v: seq<Byte>) {
    [(if e.fov0 then 1 else 0) + (if e.fov1 then 2 else 0)]
  }

  function Bool(v: seq<Byte>): (r: Option<bool>) {
    match UpTo(v, 1)
    case None => None
    case Some(u) => Some(u == 1)
  }

  function EncodeBool(b: bool): (v: seq<Byte>) {
    [if b then 1 else 0]
  }

  datatype ImuSensor = ImuSensor(outputRate: Byte, accelRange: Byte, gyroRange: Byte)

  function ImuSensorConfig(v: seq<Byte>): (r: Option<ImuSensor>) {
    if |v| != 3 || v[0] > 3 || v[1] > 3 || v[2] > 7 then None else Some(ImuSensor(v[0], v[1], v[2]))
  }

  function EncodeImuSensor(c: ImuSensor): (v: seq<Byte>) {
    [c.outputRate, c.accelRange, c.gyroRange]
  }

  /** The bytes of a decoded integer are the ones it was decoded from. */
  lemma I32WritesBack(v: seq<Byte>, offset: nat)
    requires offset + 4 <= |v|
    ensures EncodeI32(I32At(v, offset)) == v[offset..offset + 4]
  {
    ReadBound(v, offset, 4);
    Ranges();
    WritesWhatWasRead(v[offset..offset + 4]);
  }

  lemma FovWritesBack(v: seq<Byte>)
    requires |v| == 20
    ensures EncodeFov(FovConfig(v).value) == v
  {
    hide EncodeI32, LittleEndian, ReadAt, ToSigned;
    I32WritesBack(v, 0);
    I32WritesBack(v, 4);
    I32WritesBack(v, 8);
    I32WritesBack(v, 12);
    U32WritesBack(v, 16);
    assert v[0..4] + v[4..8] + v[8..12] + v[12..16] + v[16..20] == v;
  }

  lemma I32ReadsBack(x: I32)
    ensures I32At(EncodeI32(x), 0) == x
  {
    Ranges();
    ReadsWhatWasWritten(FromSigned(x, 4), 4);
    assert EncodeI32(x)[0..4] == EncodeI32(x);
  }

  lemma I32AtSlice(v: seq<Byte>, offset: nat)
    requires offset + 4 <= |v|
    ensures I32At(v, offset) == I32At(v[offset..offset + 4], 0)
  {
    assert v[offset..offset + 4][0..4] == v[offset..offset + 4];
  }

  lemma FiveFields(a: seq<Byte>, b: seq<Byte>, c: seq<Byte>, d: seq<Byte>, e: seq<Byte>)
    requires |a| == |b| == |c| == |d| == |e| == 4
    ensures var v := a + b + c + d + e;
            v[0..4] == a && v[4..8] == b && v[8..12] == c && v[12..16] == d && v[16..20] == e
  {
  }

  /** Decoding an encoded window gives it back. */
  lemma FovReadsBack(f: Fov)
    ensures FovConfig(EncodeFov(f)) == Some(f)
  {
    hide EncodeI32, LittleEndian, ToSigned, I32At;
    var v := EncodeFov(f);
    I32AtSlice(v, 0); I32AtSlice(v, 4); I32AtSlice(v, 8); I32AtSlice(v, 12);
    I32ReadsBack(f.yawStart); I32ReadsBack(f.yawStop); I32ReadsBack(f.pitchStart); I32ReadsBack(f.pitchStop);
    FiveFields(EncodeI32(f.yawStart), EncodeI32(f.yawStop), EncodeI32(f.pitchStart), EncodeI32(f.pitchStop),
               LittleEndian(f.reserved, 4));
    Ranges();
    ReadsWhatWasWritten(f.reserved, 4);
  }

  lemma U32WritesBack(v: seq<Byte>, offset: nat)
    requires offset + 4 <= |v|
    ensures LittleEndian(ReadAt(v, offset, 4), 4) == v[offset..offset + 4]
  {
    WritesWhatWasRead(v[offset..offset + 4]);
  }

  /** Encoding undoes decoding for every decodable value of the one-byte and three-byte keys. */
  lemma SmallValuesWriteBack(v: seq<Byte>)
    ensures PclType(v).Some? ==> EncodePclType(PclType(v).value) == v
    ensures FovEnableMask(v).Some? ==> EncodeFovEnable(FovEnableMask(v).value) == v
    ensures Bool(v).Some? ==> EncodeBool(Bool(v).value) == v
    ensures ImuSensorConfig(v).Some? ==> EncodeImuSensor(ImuSensorConfig(v).value) == v
    ensures forall max: Byte :: UpTo(v, max).Some? ==> [UpTo(v, max).value] == v
  {
    if |v| == 1 { assert v == [v[0]]; }
    if |v| == 3 { assert v == [v[0], v[1], v[2]]; }
  }

  // ---------------------------------------------------------------------------
  // Values of the status push read back
  // ---------------------------------------------------------------------------

  lemma UnsignedReadsBack(x: nat, n: nat)
    requires x < Range(n)
    ensures Unsigned(LittleEndian(x, n), n) == Some(x)
  {
    hide LittleEndian, Value, Range;
    ReadsWhatWasWritten(x, n);
    assert LittleEndian(x, n)[0..n] == LittleEndian(x, n);
  }

  lemma SignedReadsBack(x: int, n: nat)
    requires 0 <= 2 * x + Range(n) && 2 * x < Range(n)
    ensures Signed(LittleEndian(FromSigned(x, n), n), n) == Some(x)
  {
    hide LittleEndian, Value, Range;
    UnsignedReadsBack(FromSigned(x, n), n);
  }

  function EncodeDiag(d: Diag): (v: seq<Byte>)
    requires d.system <= 3 && d.scan <= 3 && d.ranging <= 3 && d.communication <= 3
  {
    [d.scan * 16 + d.system, d.communication * 16 + d.ranging]
  }

  lemma DiagReadsBack(d: Diag)
    requires d.system <= 3 && d.scan <= 3 && d.ranging <= 3 && d.communication <= 3
    ensures DiagStatus(EncodeDiag(d)) == Some(d)
  {
    Quotient(d.scan * 16 + d.system, 16, d.scan, d.system);
    Quotient(d.communication * 16 + d.ranging, 16, d.communication, d.ranging);
  }

  /** Four bytes per code. */
  function EncodeCodes(codes: seq<nat>): (v: seq<Byte>)
    ensures |v| == 4 * |codes|
  {
    if codes == [] then [] else EncodeCodes(codes[..|codes| - 1]) + LittleEndian(codes[|codes| - 1], 4)
  }

  lemma {:induction false} CodeAt(codes: seq<nat>, i: nat)
    requires i < |codes| && codes[i] < 0x1_0000_0000
    ensures ReadAt(EncodeCodes(codes), 4 * i, 4) == codes[i]
    decreases |codes|
  {
    hide LittleEndian, Value;
    var n, v := |codes| - 1, EncodeCodes(codes);
    var before := EncodeCodes(codes[..n]);
    if i < n {
      CodeAt(codes[..n], i);
      assert v[4 * i..4 * i + 4] == before[4 * i..4 * i + 4];
    } else {
      Ranges();
      ReadsWhatWasWritten(codes[n], 4);
      assert v[4 * i..4 * i + 4] == LittleEndian(codes[n], 4);
    }
  }

  lemma HmsReadsBack(codes: seq<nat>)
    requires |codes| == 8 && forall i :: 0 <= i < 8 ==> codes[i] < 0x1_0000_0000
    ensures HmsCodes(EncodeCodes(codes)) == Some(codes)
  {
    hide EncodeCodes, ReadAt;
    CodeAt(codes, 0); CodeAt(codes, 1); CodeAt(codes, 2); CodeAt(codes, 3);
    CodeAt(codes, 4); CodeAt(codes, 5); CodeAt(codes, 6); CodeAt(codes, 7);
    assert codes == [codes[0], codes[1], codes[2], codes[3], codes[4], codes[5], codes[6], codes[7]];
  }
}
