/**
  Replay of the settings after a reconnect (src/device.cpp, src/config.cpp): every accepted write is
  folded into a HostSetup, and a recovery attempt writes that HostSetup to the LiDAR.
*/
module ReplaySetup {
  import opened Bytes
  import opened KeyValueList
  import opened Keys
  import opened Packets
  import opened Seqs
  import opened Wrappers

  type Ip = s: seq<Byte> | |s| == 4 witness [0, 0, 0, 0]
  const NO_IP: Ip := [0, 0, 0, 0]

  const PUSH_PORT: U16 := 56200
  const POINT_CLOUD_PORT: U16 := 56300
  const IMU_PORT: U16 := 56400

  datatype FovSettings = FovSettings(fov0: Option<Fov>, fov1: Option<Fov>, enable: Option<FovEnable>)

  datatype HostSetup = HostSetup(
    ip: Option<Ip>, pushPort: U16, pointPort: U16, imuPort: U16, pclDataType: DataType, imuEnable: bool,
    scanPattern: Option<Byte>, fov: Option<FovSettings>, detectMode: Option<Byte>,
    timeFilter: Option<bool>, imuSensor: Option<ImuSensor>)

  const NO_FOV := FovSettings(None, None, None)

  function FovOf(s: HostSetup): (f: FovSettings) {
    if s.fov.Some? then s.fov.value else NO_FOV
  }

  /** Folds one key of an accepted write into the setup; what it cannot decode it leaves alone. */
  function AbsorbedOne(s: HostSetup, kv: KeyValue): (r: HostSetup) {
    if kv.key == PCL_DATA_TYPE then
      var v := PclType(kv.value); if v.Some? then s.(pclDataType := v.value) else s
    else if kv.key == PATTERN_MODE then
      var v := UpTo(kv.value, 2); if v.Some? then s.(scanPattern := v) else s
    else if kv.key == FOV_CFG0 then
      var v := FovConfig(kv.value); if v.Some? then s.(fov := Some(FovOf(s).(fov0 := v))) else s
    else if kv.key == FOV_CFG1 then
      var v := FovConfig(kv.value); if v.Some? then s.(fov := Some(FovOf(s).(fov1 := v))) else s
    else if kv.key == FOV_CFG_EN then
      var v := FovEnableMask(kv.value); if v.Some? then s.(fov := Some(FovOf(s).(enable := v))) else s
    else if kv.key == IMU_DATA_EN then
      var v := Bool(kv.value); if v.Some? then s.(imuEnable := v.value) else s
    else if kv.key == DETECT_MODE then
      var v := UpTo(kv.value, 1); if v.Some? then s.(detectMode := v) else s
    else if kv.key == TIME_FILTER then
      var v := Bool(kv.value); if v.Some? then s.(timeFilter := v) else s
    else if kv.key == IMU_SENSOR_CFG then
      var v := ImuSensorConfig(kv.value); if v.Some? then s.(imuSensor := v) else s
    else s
  }

  function Absorbed(s: HostSetup, kvs: seq<KeyValue>): (r: HostSetup) {
    if kvs == [] then s else AbsorbedOne(Absorbed(s, kvs[..|kvs| - 1]), kvs[|kvs| - 1])
  }

  /** absorb(). */
  class SetupStore {
    var hostSetup: HostSetup

    constructor (initial: HostSetup)
      ensures hostSetup == initial
    {
      hostSetup := initial;
    }

    method Absorb(kvs: seq<KeyValue>)
      modifies this
      ensures hostSetup == Absorbed(old(hostSetup), kvs)
    {
      hide AbsorbedOne;
      for i := 0 to |kvs|
        invariant hostSetup == Absorbed(old(hostSetup), kvs[..i])
      {
        assert kvs[..i + 1][..i] == kvs[..i];
        hostSetup := AbsorbedOne(hostSetup, kvs[i]);
      }
      assert kvs[..|kvs|] == kvs;
    }
  }

  // ---------------------------------------------------------------------------
  // The replayed request
  // ---------------------------------------------------------------------------

  function HostIpConfig(ip: Ip, dstPort: U16, srcPort: U16): (v: seq<Byte>) {
    ip + LittleEndian(dstPort, 2) + LittleEndian(srcPort, 2)
  }

  /** The value the setup has for a key that writes are folded into. */
  function Field(s: HostSetup, key: U16): (v: Option<seq<Byte>>) {
    if key == PCL_DATA_TYPE then Some(EncodePclType(s.pclDataType))
    else if key == IMU_DATA_EN then Some(EncodeBool(s.imuEnable))
    else if key == PATTERN_MODE then if s.scanPattern.Some? then Some([s.scanPattern.value]) else None
    else if key == FOV_CFG0 then if FovOf(s).fov0.Some? then Some(EncodeFov(FovOf(s).fov0.value)) else None
    else if key == FOV_CFG1 then if FovOf(s).fov1.Some? then Some(EncodeFov(FovOf(s).fov1.value)) else None
    else if key == FOV_CFG_EN then if FovOf(s).enable.Some? then Some(EncodeFovEnable(FovOf(s).enable.value)) else None
    else if key == DETECT_MODE then if s.detectMode.Some? then Some([s.detectMode.value]) else None
    else if key == TIME_FILTER then if s.timeFilter.Some? then Some(EncodeBool(s.timeFilter.value)) else None
    else if key == IMU_SENSOR_CFG then if s.imuSensor.Some? then Some(EncodeImuSensor(s.imuSensor.value)) else None
    else None
  }

  /** The keys that writes are folded into, in the order they are replayed. */
  const REPLAYED: seq<U16> := [
    PCL_DATA_TYPE, IMU_DATA_EN, PATTERN_MODE, FOV_CFG0, FOV_CFG1, FOV_CFG_EN, DETECT_MODE, TIME_FILTER, IMU_SENSOR_CFG]

  /** Whether the value of a replayed key can be decoded. */
  predicate Decodable(key: U16, v: seq<Byte>) {
    if key == PCL_DATA_TYPE then PclType(v).Some?
    else if key == IMU_DATA_EN || key == TIME_FILTER then Bool(v).Some?
    else if key == PATTERN_MODE then UpTo(v, 2).Some?
    else if key == FOV_CFG0 || key == FOV_CFG1 then FovConfig(v).Some?
    else if key == FOV_CFG_EN then FovEnableMask(v).Some?
    else if key == DETECT_MODE then UpTo(v, 1).Some?
    else if key == IMU_SENSOR_CFG then ImuSensorConfig(v).Some?
    else false
  }

  lemma AbsorbedOwn(s: HostSetup, kv: KeyValue)
    requires kv.key in REPLAYED
    ensures Field(AbsorbedOne(s, kv), kv.key)
            == if Decodable(kv.key, kv.value) then Some(kv.value) else Field(s, kv.key)
  {
    hide EncodeFov, FovConfig, EncodePclType, PclType, EncodeBool, Bool, EncodeFovEnable, FovEnableMask,
      EncodeImuSensor, ImuSensorConfig, UpTo;
    SmallValuesWriteBack(kv.value);
    FovValueWritesBack(kv.value);
  }

  lemma AbsorbedOther(s: HostSetup, kv: KeyValue, key: U16)
    requires kv.key != key
    ensures Field(AbsorbedOne(s, kv), key) == Field(s, key)
  {
    hide EncodeFov, FovConfig, EncodePclType, PclType, EncodeBool, Bool, EncodeFovEnable, FovEnableMask,
      EncodeImuSensor, ImuSensorConfig, UpTo;
  }

  lemma FovValueWritesBack(v: seq<Byte>)
    ensures FovConfig(v).Some? ==> EncodeFov(FovConfig(v).value) == v
  {
    hide EncodeFov;
    if |v| == 20 { FovWritesBack(v); }
  }

  // ---------------------------------------------------------------------------
  // Histories of accepted writes
  // ---------------------------------------------------------------------------

  function LastWritten(writes: seq<KeyValue>, key: U16): (v: Option<seq<Byte>>) {
    if writes == [] then None
    else
      var n := |writes| - 1;
      if writes[n].key == key then Some(writes[n].value) else LastWritten(writes[..n], key)
  }

  function LastDecodable(writes: seq<KeyValue>, key: U16): (v: Option<seq<Byte>>) {
    if writes == [] then None
    else
      var n := |writes| - 1;
      if writes[n].key == key && Decodable(key, writes[n].value) then Some(writes[n].value)
      else LastDecodable(writes[..n], key)
  }

  /** What is replayed for a key is the last decodable value written, else what the setup began with. */
  lemma {:induction false} FieldOfHistory(initial: HostSetup, writes: seq<KeyValue>, key: U16)
    requires key in REPLAYED
    ensures Field(Absorbed(initial, writes), key)
            == if LastDecodable(writes, key).Some? then LastDecodable(writes, key) else Field(initial, key)
  {
    hide Field, Decodable, AbsorbedOne;
    if writes != [] {
      var n := |writes| - 1;
      FieldOfHistory(initial, writes[..n], key);
      var before := Absorbed(initial, writes[..n]);
      if writes[n].key == key { AbsorbedOwn(before, writes[n]); } else { AbsorbedOther(before, writes[n], key); }
    }
  }

  lemma {:induction false} LastWriteDecodable(writes: seq<KeyValue>, key: U16)
    requires LastWritten(writes, key).Some?
    ensures LastDecodable(writes, key) == LastWritten(writes, key) <==> Decodable(key, LastWritten(writes, key).value)
    ensures LastDecodable(writes, key).Some? ==> Decodable(key, LastDecodable(writes, key).value)
  {
    hide Decodable;
    var n := |writes| - 1;
    LastDecodableIs(writes[..n], key);
    if writes[n].key != key { LastWriteDecodable(writes[..n], key); }
  }

  lemma {:induction false} LastDecodableIs(writes: seq<KeyValue>, key: U16)
    ensures LastDecodable(writes, key).Some? ==> Decodable(key, LastDecodable(writes, key).value)
  {
    hide Decodable;
    if writes != [] { LastDecodableIs(writes[..|writes| - 1], key); }
  }

  // ---------------------------------------------------------------------------
  // The request
  // ---------------------------------------------------------------------------

  /** The replayed values of the first `n` keys. */
  function Replay(s: HostSetup, n: nat): (kvs: seq<KeyValue>)
    requires n <= |REPLAYED|
  {
    if n == 0 then []
    else
      var before, v := Replay(s, n - 1), Field(s, REPLAYED[n - 1]);
      if v.Some? then before + [KeyValue(REPLAYED[n - 1], v.value)] else before
  }

  function HostKeys(s: HostSetup, ip: Ip): (kvs: seq<KeyValue>) {
    [KeyValue(STATE_INFO_HOST, HostIpConfig(ip, s.pushPort, PUSH_PORT)),
     KeyValue(POINT_CLOUD_HOST, HostIpConfig(ip, s.pointPort, POINT_CLOUD_PORT)),
     KeyValue(IMU_HOST, HostIpConfig(ip, s.imuPort, IMU_PORT))]
  }

  function SetupKeyValues(s: HostSetup, ip: Ip): (kvs: seq<KeyValue>) {
    HostKeys(s, ip) + Replay(s, |REPLAYED|)
  }

  function Concatenated(kvs: seq<KeyValue>): (bytes: seq<Byte>) {
    if kvs == [] then [] else Concatenated(kvs[..|kvs| - 1]) + kvs[|kvs| - 1].value
  }

  lemma {:induction false} ConcatenatedPrefix(kvs: seq<KeyValue>, i: nat)
    requires i < |kvs|
    ensures var off := |Concatenated(kvs[..i])|;
            && off + |kvs[i].value| == |Concatenated(kvs[..i + 1])| <= |Concatenated(kvs)|
            && Concatenated(kvs)[off..off + |kvs[i].value|] == kvs[i].value
    decreases |kvs|
  {
    var n := |kvs| - 1;
    if i < n {
      ConcatenatedPrefix(kvs[..n], i);
      assert kvs[..n][..i] == kvs[..i] && kvs[..n][..i + 1] == kvs[..i + 1];
    } else {
      assert kvs[..i + 1] == kvs;
    }
  }

  /** The values of host_setup_key_values: views into one storage, set once it has its final size. */
  class KeyValueBuilder {
    var storage: seq<Byte>
    var keys: seq<U16>
    var lengths: seq<nat>
    ghost var items: seq<KeyValue>

    ghost predicate Valid()
      reads this
    {
      && |keys| == |lengths| == |items|
      && (forall i :: 0 <= i < |items| ==> keys[i] == items[i].key && lengths[i] == |items[i].value|)
      && storage == Concatenated(items)
    }

    constructor ()
      ensures Valid() && items == []
    {
      storage, keys, lengths, items := [], [], [], [];
    }

    method Put(key: U16, bytes: seq<Byte>)
      requires Valid()
      modifies this
      ensures Valid() && items == old(items) + [KeyValue(key, bytes)]
    {
      Without(items, KeyValue(key, bytes));
      storage := storage + bytes;
      keys := keys + [key];
      lengths := lengths + [|bytes|];
      items := items + [KeyValue(key, bytes)];
    }

    method Views() returns (values: seq<KeyValue>)
      requires Valid()
      ensures values == items
    {
      values := [];
      var off := 0;
      for i := 0 to |keys|
        invariant off == |Concatenated(items[..i])|
        invariant values == items[..i]
      {
        ConcatenatedPrefix(items, i);
        values := values + [KeyValue(keys[i], storage[off..off + lengths[i]])];
        off := off + lengths[i];
      }
    }
  }

  /** One more replayed key. */
  lemma ReplayStep(s: HostSetup, ip: Ip, n: nat)
    requires n < |REPLAYED|
    ensures var v, before := Field(s, REPLAYED[n]), HostKeys(s, ip) + Replay(s, n);
            HostKeys(s, ip) + Replay(s, n + 1) == if v.Some? then before + [KeyValue(REPLAYED[n], v.value)] else before
  {
    hide Field, HostKeys;
    var v := Field(s, REPLAYED[n]);
    if v.Some? { Assoc(HostKeys(s, ip), Replay(s, n), [KeyValue(REPLAYED[n], v.value)]); }
  }

  /** Puts the next replayed key, if the setup has a value for it. */
  method PutIf(out: KeyValueBuilder, ghost s: HostSetup, ghost ip: Ip, ghost n: nat, key: U16, v: Option<seq<Byte>>)
    requires out.Valid() && n < |REPLAYED| && out.items == HostKeys(s, ip) + Replay(s, n)
    requires key == REPLAYED[n] && v == Field(s, key)
    modifies out
    ensures out.Valid() && out.items == HostKeys(s, ip) + Replay(s, n + 1)
  {
    hide Field, HostKeys, Replay;
    ReplayStep(s, ip, n);
    if v.Some? { out.Put(key, v.value); }
  }

  method PutHosts(out: KeyValueBuilder, s: HostSetup, ip: Ip)
    requires out.Valid() && out.items == []
    modifies out
    ensures out.Valid() && out.items == HostKeys(s, ip) + Replay(s, 0)
  {
    hide HostIpConfig;
    out.Put(STATE_INFO_HOST, HostIpConfig(ip, s.pushPort, PUSH_PORT));
    out.Put(POINT_CLOUD_HOST, HostIpConfig(ip, s.pointPort, POINT_CLOUD_PORT));
    out.Put(IMU_HOST, HostIpConfig(ip, s.imuPort, IMU_PORT));
  }

  method PutFov(out: KeyValueBuilder, s: HostSetup, ghost ip: Ip)
    requires out.Valid() && out.items == HostKeys(s, ip) + Replay(s, 3)
    modifies out
    ensures out.Valid() && out.items == HostKeys(s, ip) + Replay(s, 6)
  {
    hide HostKeys, Replay, EncodeFov, EncodeFovEnable;
    var f := if s.fov.Some? then s.fov.value else NO_FOV;
    PutIf(out, s, ip, 3, FOV_CFG0, if f.fov0.Some? then Some(EncodeFov(f.fov0.value)) else None);
    PutIf(out, s, ip, 4, FOV_CFG1, if f.fov1.Some? then Some(EncodeFov(f.fov1.value)) else None);
    PutIf(out, s, ip, 5, FOV_CFG_EN, if f.enable.Some? then Some(EncodeFovEnable(f.enable.value)) else None);
  }

  method PutModes(out: KeyValueBuilder, s: HostSetup, ghost ip: Ip)
    requires out.Valid() && out.items == HostKeys(s, ip) + Replay(s, 6)
    modifies out
    ensures out.Valid() && out.items == HostKeys(s, ip) + Replay(s, 9)
  {
    hide HostKeys, Replay, EncodeBool, EncodeImuSensor;
    PutIf(out, s, ip, 6, DETECT_MODE, if s.detectMode.Some? then Some([s.detectMode.value]) else None);
    PutIf(out, s, ip, 7, TIME_FILTER, if s.timeFilter.Some? then Some(EncodeBool(s.timeFilter.value)) else None);
    PutIf(out, s, ip, 8, IMU_SENSOR_CFG, if s.imuSensor.Some? then Some(EncodeImuSensor(s.imuSensor.value)) else None);
  }

  /** host_setup_key_values. */
  method HostSetupKeyValues(s: HostSetup, ip: Ip) returns (values: seq<KeyValue>)
    ensures values == SetupKeyValues(s, ip)
  {
    hide HostKeys, Replay, EncodePclType, EncodeBool, EncodeImuSensor;
    var out := new KeyValueBuilder();
    PutHosts(out, s, ip);
    PutIf(out, s, ip, 0, PCL_DATA_TYPE, Some(EncodePclType(s.pclDataType)));
    PutIf(out, s, ip, 1, IMU_DATA_EN, Some(EncodeBool(s.imuEnable)));
    PutIf(out, s, ip, 2, PATTERN_MODE, if s.scanPattern.Some? then Some([s.scanPattern.value]) else None);
    PutFov(out, s, ip);
    PutModes(out, s, ip);
    values := out.Views();
  }

  // ---------------------------------------------------------------------------
  // The attempt
  // ---------------------------------------------------------------------------

  /** The settings of a LiDAR by key. */
  type Stored = map<U16, seq<Byte>>

  function Configured(lidar: Stored, kvs: seq<KeyValue>): (r: Stored) {
    if kvs == [] then lidar
    else Configured(lidar, kvs[..|kvs| - 1])[kvs[|kvs| - 1].key := kvs[|kvs| - 1].value]
  }

  datatype SetupError = InvalidArgument(key: U16) | NotAccepted

  function OutOfRange(f: Option<Fov>): (r: bool) {
    f.Some? && !FovInRange(f.value)
  }

  /** apply_host_setup; `accepted` says whether the LiDAR acknowledges the request. */
  function Applied(lidar: Stored, s: HostSetup, localIp: Ip, accepted: bool): (r: Result<Stored, SetupError>) {
    var ip := if s.ip.Some? then s.ip.value else localIp;
    if ip == NO_IP then Err(InvalidArgument(POINT_CLOUD_HOST))
    else if OutOfRange(FovOf(s).fov0) then Err(InvalidArgument(FOV_CFG0))
    else if OutOfRange(FovOf(s).fov1) then Err(InvalidArgument(FOV_CFG1))
    else if !accepted then Err(NotAccepted)
    else Ok(Configured(lidar, SetupKeyValues(s, ip)))
  }

  /** What an attempt refuses before it sends anything. */
  predicate Refuses(s: HostSetup, localIp: Ip) {
    || (if s.ip.Some? then s.ip.value else localIp) == NO_IP
    || OutOfRange(FovOf(s).fov0) || OutOfRange(FovOf(s).fov1)
  }

  lemma ReplayedAreDistinct(i: nat, j: nat)
    requires i < j < |REPLAYED|
    ensures REPLAYED[i] != REPLAYED[j]
  {
  }

  lemma ReplayedAreNoHostKeys(key: U16)
    requires key in REPLAYED
    ensures key != STATE_INFO_HOST && key != POINT_CLOUD_HOST && key != IMU_HOST
  {
  }

  lemma HostKeysLeave(lidar: Stored, s: HostSetup, ip: Ip, key: U16)
    requires key != STATE_INFO_HOST && key != POINT_CLOUD_HOST && key != IMU_HOST
    ensures var r := Configured(lidar, HostKeys(s, ip));
            key in r <==> key in lidar
    ensures key in lidar ==> Configured(lidar, HostKeys(s, ip))[key] == lidar[key]
  {
    hide HostIpConfig, Configured;
    var kvs := HostKeys(s, ip);
    assert kvs == [] + [kvs[0]] + [kvs[1]] + [kvs[2]];
    assert Configured(lidar, []) == lidar by { NothingConfigured(lidar); }
    ConfiguredOneMore(lidar, [], kvs[0]);
    ConfiguredOneMore(lidar, [] + [kvs[0]], kvs[1]);
    ConfiguredOneMore(lidar, [] + [kvs[0]] + [kvs[1]], kvs[2]);
  }

  lemma NothingConfigured(lidar: Stored)
    ensures Configured(lidar, []) == lidar
  {
  }

  lemma ConfiguredOneMore(lidar: Stored, kvs: seq<KeyValue>, kv: KeyValue)
    ensures Configured(lidar, kvs + [kv]) == Configured(lidar, kvs)[kv.key := kv.value]
  {
    Without(kvs, kv);
  }

  /** After the first `n` replayed keys the LiDAR holds those, and the others as they were. */
  lemma {:induction false} ReplayConfigures(lidar: Stored, s: HostSetup, ip: Ip, n: nat, i: nat)
    requires n <= |REPLAYED| && i < |REPLAYED|
    ensures var r, key := Configured(lidar, HostKeys(s, ip) + Replay(s, n)), REPLAYED[i];
            if i < n && Field(s, key).Some? then key in r && r[key] == Field(s, key).value
            else if key in lidar then key in r && r[key] == lidar[key] else key !in r
  {
    hide Field, HostKeys, Configured, Replay;
    var key := REPLAYED[i];
    if n == 0 {
      ReplayedAreNoHostKeys(key);
      HostKeysLeave(lidar, s, ip, key);
      NothingReplayed(s, ip);
    } else {
      ReplayConfigures(lidar, s, ip, n - 1, i);
      ReplayStep(s, ip, n - 1);
      var v := Field(s, REPLAYED[n - 1]);
      if v.Some? { ConfiguredOneMore(lidar, HostKeys(s, ip) + Replay(s, n - 1), KeyValue(REPLAYED[n - 1], v.value)); }
      if i < n - 1 { ReplayedAreDistinct(i, n - 1); } else if i > n - 1 { ReplayedAreDistinct(n - 1, i); }
    }
  }

  lemma NothingReplayed(s: HostSetup, ip: Ip)
    ensures HostKeys(s, ip) + Replay(s, 0) == HostKeys(s, ip)
  {
  }

  lemma IndexOf(key: U16) returns (i: nat)
    requires key in REPLAYED
    ensures i < |REPLAYED| && REPLAYED[i] == key
  {
    i :| 0 <= i < |REPLAYED| && REPLAYED[i] == key;
  }

  /** A successful attempt leaves each replayed key at the setup's value, if it has one. */
  lemma AttemptConfigures(lidar: Stored, s: HostSetup, localIp: Ip, key: U16)
    requires key in REPLAYED && Applied(lidar, s, localIp, true).Ok?
    ensures var r := Applied(lidar, s, localIp, true).value;
            if Field(s, key).Some? then key in r && r[key] == Field(s, key).value
            else if key in lidar then key in r && r[key] == lidar[key] else key !in r
  {
    hide Field, HostKeys, Configured, Replay, OutOfRange;
    var i := IndexOf(key);
    ReplayConfigures(lidar, s, if s.ip.Some? then s.ip.value else localIp, |REPLAYED|, i);
  }

  predicate Restores(r: Result<Stored, SetupError>, key: U16, v: seq<Byte>) {
    r.Ok? && key in r.value && r.value[key] == v
  }

  /**
    For every setup and every history of accepted writes, whatever the LiDAR lost and in whatever
    state it comes back: an acknowledged attempt restores the value last written to a replayed key
    exactly if the attempt is not refused and that value is decodable, or no decodable one was ever
    written and the setup began with it.
  */
  lemma ReplayRestoresTheLastWrite(initial: HostSetup, writes: seq<KeyValue>, localIp: Ip, key: U16)
    requires key in REPLAYED && LastWritten(writes, key).Some?
    ensures var v := LastWritten(writes, key);
            (forall lost :: Restores(Applied(lost, Absorbed(initial, writes), localIp, true), key, v.value))
            <==> && !Refuses(Absorbed(initial, writes), localIp)
                 && (Decodable(key, v.value) || (LastDecodable(writes, key).None? && Field(initial, key) == v))
  {
    hide Field, Decodable, Absorbed, LastWritten, LastDecodable, SetupKeyValues, OutOfRange;
    var s, v := Absorbed(initial, writes), LastWritten(writes, key).value;
    FieldOfHistory(initial, writes, key);
    LastWriteDecodable(writes, key);
    if Refuses(s, localIp) {
      assert !Restores(Applied(map[], s, localIp, true), key, v);
    } else {
      AttemptConfigures(map[], s, localIp, key);
      assert Restores(Applied(map[], s, localIp, true), key, v) ==> Field(s, key) == Some(v);
      forall lost ensures Field(s, key) == Some(v) ==> Restores(Applied(lost, s, localIp, true), key, v) {
        AttemptConfigures(lost, s, localIp, key);
      }
    }
  }

  /** The setup a device is opened with by default. */
  const DEFAULT := HostSetup(None, 56201, 56301, 56401, Cartesian32, true, None, None, None, None, None)
  const HOST: Ip := [192, 168, 1, 5]

  /** A scan pattern of 9, should a LiDAR accept it, is not replayed. */
  lemma UndecodableWriteIsLost()
    ensures var writes := [KeyValue(PATTERN_MODE, [9])];
            !Restores(Applied(map[], Absorbed(DEFAULT, writes), HOST, true), PATTERN_MODE, [9])
  {
    hide SetupKeyValues, Configured;
    var writes := [KeyValue(PATTERN_MODE, [9])];
    assert writes[..0] == [];
    assert Absorbed(DEFAULT, writes) == DEFAULT;
    AttemptConfigures(map[], DEFAULT, HOST, PATTERN_MODE);
  }

  /** A window up to 400 degrees, should a LiDAR accept it, makes the next attempt fail. */
  lemma OutOfRangeWriteBlocksReplay()
    ensures var writes := [KeyValue(FOV_CFG0, EncodeFov(Fov(0, 400, 0, 0, 0)))];
            Applied(map[], Absorbed(DEFAULT, writes), HOST, true) == Err(InvalidArgument(FOV_CFG0))
  {
    hide SetupKeyValues, Configured, EncodeFov, FovConfig;
    var f := Fov(0, 400, 0, 0, 0);
    var writes := [KeyValue(FOV_CFG0, EncodeFov(f))];
    assert writes[..0] == [];
    FovReadsBack(f);
    assert Absorbed(DEFAULT, writes) == DEFAULT.(fov := Some(NO_FOV.(fov0 := Some(f))));
  }

  /** The value of a FOV window as the replay has it: the last decodable write, else the initial one. */
  function Window(initial: HostSetup, writes: seq<KeyValue>, key: U16): (f: Option<Fov>)
    requires key == FOV_CFG0 || key == FOV_CFG1
  {
    if LastDecodable(writes, key).Some? then FovConfig(LastDecodable(writes, key).value)
    else if key == FOV_CFG0 then FovOf(initial).fov0 else FovOf(initial).fov1
  }

  lemma {:induction false} WindowsOfHistory(initial: HostSetup, writes: seq<KeyValue>)
    ensures var f := FovOf(Absorbed(initial, writes));
            f.fov0 == Window(initial, writes, FOV_CFG0) && f.fov1 == Window(initial, writes, FOV_CFG1)
  {
    hide FovConfig, PclType, Bool, FovEnableMask, ImuSensorConfig, UpTo;
    if writes != [] {
      var n := |writes| - 1;
      WindowsOfHistory(initial, writes[..n]);
    }
  }

  lemma {:induction false} AddressOfHistory(initial: HostSetup, writes: seq<KeyValue>)
    ensures var s := Absorbed(initial, writes);
            && s.ip == initial.ip && s.pushPort == initial.pushPort
            && s.pointPort == initial.pointPort && s.imuPort == initial.imuPort
  {
    hide FovConfig, PclType, Bool, FovEnableMask, ImuSensorConfig, UpTo;
    if writes != [] { AddressOfHistory(initial, writes[..|writes| - 1]); }
  }

  /**
    An attempt is refused without a request exactly if there is no host address, or the last decodable
    write of a FOV window (which the LiDAR had accepted) is out of the range checked here.
  */
  lemma RefusedExactly(initial: HostSetup, writes: seq<KeyValue>, lost: Stored, localIp: Ip)
    ensures (exists key :: Applied(lost, Absorbed(initial, writes), localIp, true) == Err(InvalidArgument(key)))
            <==> || (if initial.ip.Some? then initial.ip.value else localIp) == NO_IP
                 || OutOfRange(Window(initial, writes, FOV_CFG0)) || OutOfRange(Window(initial, writes, FOV_CFG1))
  {
    hide Absorbed, SetupKeyValues, Configured, Window, OutOfRange;
    WindowsOfHistory(initial, writes);
    AddressOfHistory(initial, writes);
    var r := Applied(lost, Absorbed(initial, writes), localIp, true);
    if r.Err? { assert r == Err(InvalidArgument(r.error.key)); }
  }
}
