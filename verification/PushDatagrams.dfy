/** The datagrams that carry a status: every LiDAR status that is pushed arrives in the merged one. */
module PushDatagrams {
  import opened Bytes
  import opened CommandFrame
  import opened KeyValueList
  import opened Keys
  import opened PushHistory
  import opened PushMerge
  import opened Seqs
  import opened Wrappers

  /** A command frame around the values, as a LiDAR sends it. */
  function Datagram(spec: Spec, kvs: seq<KeyValue>, r0: Byte, r1: Byte): (d: seq<Byte>) {
    CommandFrame.Encoded(spec.(data := EncodedInfoPush(kvs, r0, r1)))
  }

  /** The values fit the frame and its length fields. */
  predicate Sendable(kvs: seq<KeyValue>) {
    FitsLengthFields(kvs) && |kvs| < 0x1_0000 && 4 + |KeyValueList.Encoded(kvs)| <= DATA_MAX_SIZE
  }

  /** Of the command frames, those of command 0x0102 are pushes, with the values they were made of. */
  lemma DatagramCarriesItsValues(spec: Spec, kvs: seq<KeyValue>, r0: Byte, r1: Byte, trailing: seq<Byte>)
    requires Sendable(kvs)
    ensures ValuesOf(Datagram(spec, kvs, r0, r1) + trailing) == if spec.cmdId == 0x0102 then Some(kvs) else None
  {
    hide Parse, ParseInfoPush, KeyValueList.Encoded, FitsLengthFields, Head, HeaderCrc, DataCrc, LittleEndian;
    var s := spec.(data := EncodedInfoPush(kvs, r0, r1));
    ParseInvertsEncode(s, trailing);
    InfoPushReadsBack(kvs, r0, r1);
  }

  /** How many of the datagrams are pushes. */
  function Good(pushes: seq<seq<Byte>>): (n: nat) {
    if pushes == [] then 0
    else Good(pushes[..|pushes| - 1]) + (if ValuesOf(pushes[|pushes| - 1]).Some? then 1 else 0)
  }

  /** Every datagram is counted, as a push or as a bad packet. */
  lemma {:induction false} EveryDatagramIsCounted(pushes: seq<seq<Byte>>)
    ensures After(pushes).pushes == Good(pushes) && After(pushes).pushes + After(pushes).badPackets == |pushes|
  {
    hide ValuesOf, Merged, Sorted, StateEvent, HmsEvent, DiagEvent;
    if pushes != [] { EveryDatagramIsCounted(pushes[..|pushes| - 1]); }
  }

  // ---------------------------------------------------------------------------
  // A status on the wire
  // ---------------------------------------------------------------------------

  /** A key and its value, if the push has one. */
  datatype Slot = Slot(key: U16, value: Option<seq<Byte>>)

  function Present(slots: seq<Slot>): (kvs: seq<KeyValue>)
    ensures |kvs| <= |slots|
  {
    if slots == [] then []
    else
      var before, last := Present(slots[..|slots| - 1]), slots[|slots| - 1];
      if last.value.Some? then before + [KeyValue(last.key, last.value.value)] else before
  }

  predicate DifferentKeys(slots: seq<Slot>) {
    forall i, j :: 0 <= i < j < |slots| ==> slots[i].key != slots[j].key
  }

  lemma {:induction false} AbsentKey(slots: seq<Slot>, key: U16)
    requires forall i :: 0 <= i < |slots| ==> slots[i].key != key
    ensures FindKey(Present(slots), key) == None
  {
    if slots != [] {
      var before, last := slots[..|slots| - 1], slots[|slots| - 1];
      AbsentKey(before, key);
      if last.value.Some? { FindInTwo(Present(before), KeyValue(last.key, last.value.value), key); }
    }
  }

  lemma {:induction false} PresentKey(slots: seq<Slot>, i: nat)
    requires DifferentKeys(slots) && i < |slots|
    ensures FindKey(Present(slots), slots[i].key) == slots[i].value
    decreases |slots|
  {
    var n := |slots| - 1;
    var before, last := slots[..n], slots[n];
    if last.value.Some? { FindInTwo(Present(before), KeyValue(last.key, last.value.value), slots[i].key); }
    if i < n { PresentKey(before, i); } else { AbsentKey(before, last.key); }
  }

  /** A status whose fields are in the ranges of their keys. */
  predicate OnTheWire(s: Status) {
    && (s.curWorkState.Some? ==> s.curWorkState.value in {0x01, 0x02, 0x04, 0x05, 0x06, 0x08, 0x09})
    && (s.coreTemp.Some? ==> -0x8000_0000 <= s.coreTemp.value < 0x8000_0000)
    && (s.powerupCnt.Some? ==> s.powerupCnt.value < 0x1_0000_0000)
    && (s.localTimeNow.Some? ==> s.localTimeNow.value < 0x1_0000_0000_0000_0000)
    && (s.lastSyncTime.Some? ==> s.lastSyncTime.value < 0x1_0000_0000_0000_0000)
    && (s.timeOffset.Some? ==> -0x8000_0000_0000_0000 <= s.timeOffset.value < 0x8000_0000_0000_0000)
    && (s.timeSyncType.Some? ==> s.timeSyncType.value <= 2)
    && (s.diag.Some? ==>
          s.diag.value.system <= 3 && s.diag.value.scan <= 3 && s.diag.value.ranging <= 3
          && s.diag.value.communication <= 3)
    && (s.fwType.Some? ==> s.fwType.value <= 1)
    && (s.hms.Some? ==> |s.hms.value| == 8 && forall i :: 0 <= i < 8 ==> s.hms.value[i] < 0x1_0000_0000)
  }

  function One(x: Option<Byte>): (v: Option<seq<Byte>>) {
    if x.Some? then Some([x.value]) else None
  }

  function Unsigned4(x: Option<nat>): (v: Option<seq<Byte>>) {
    if x.Some? then Some(LittleEndian(x.value, 4)) else None
  }

  function Unsigned8(x: Option<nat>): (v: Option<seq<Byte>>) {
    if x.Some? then Some(LittleEndian(x.value, 8)) else None
  }

  function Signed4(x: Option<int>): (v: Option<seq<Byte>>)
    requires x.Some? ==> -0x8000_0000 <= x.value < 0x8000_0000
  {
    Ranges();
    if x.Some? then Some(LittleEndian(FromSigned(x.value, 4), 4)) else None
  }

  function Signed8(x: Option<int>): (v: Option<seq<Byte>>)
    requires x.Some? ==> -0x8000_0000_0000_0000 <= x.value < 0x8000_0000_0000_0000
  {
    Ranges();
    if x.Some? then Some(LittleEndian(FromSigned(x.value, 8), 8)) else None
  }

  /** The keys of a status push and their values. */
  function Slots(s: Status): (slots: seq<Slot>)
    requires OnTheWire(s)
    ensures |slots| == 10
  {
    [Slot(0x8006, One(s.curWorkState)), Slot(0x8007, Signed4(s.coreTemp)), Slot(0x8008, Unsigned4(s.powerupCnt)),
     Slot(0x8009, Unsigned8(s.localTimeNow)), Slot(0x800A, Unsigned8(s.lastSyncTime)),
     Slot(0x800B, Signed8(s.timeOffset)), Slot(0x800C, One(s.timeSyncType)),
     Slot(0x800E, if s.diag.Some? then Some(EncodeDiag(s.diag.value)) else None),
     Slot(0x8010, One(s.fwType)), Slot(0x8011, if s.hms.Some? then Some(EncodeCodes(s.hms.value)) else None)]
  }

  lemma NumbersReadBack(s: Status)
    requires OnTheWire(s)
    ensures s.coreTemp.Some? ==> CoreTemp(Signed4(s.coreTemp).value) == s.coreTemp
    ensures s.powerupCnt.Some? ==> PowerupCnt(Unsigned4(s.powerupCnt).value) == s.powerupCnt
    ensures s.localTimeNow.Some? ==> Time(Unsigned8(s.localTimeNow).value) == s.localTimeNow
    ensures s.lastSyncTime.Some? ==> Time(Unsigned8(s.lastSyncTime).value) == s.lastSyncTime
    ensures s.timeOffset.Some? ==> TimeOffset(Signed8(s.timeOffset).value) == s.timeOffset
  {
    hide Unsigned, Signed, LittleEndian, FromSigned;
    Ranges();
    if s.coreTemp.Some? { SignedReadsBack(s.coreTemp.value, 4); }
    if s.powerupCnt.Some? { UnsignedReadsBack(s.powerupCnt.value, 4); }
    if s.localTimeNow.Some? { UnsignedReadsBack(s.localTimeNow.value, 8); }
    if s.lastSyncTime.Some? { UnsignedReadsBack(s.lastSyncTime.value, 8); }
    if s.timeOffset.Some? { SignedReadsBack(s.timeOffset.value, 8); }
  }

  lemma OthersReadBack(s: Status)
    requires OnTheWire(s)
    ensures s.curWorkState.Some? ==> WorkState([s.curWorkState.value]) == s.curWorkState
    ensures s.timeSyncType.Some? ==> TimeSyncType([s.timeSyncType.value]) == s.timeSyncType
    ensures s.diag.Some? ==> DiagStatus(EncodeDiag(s.diag.value)) == s.diag
    ensures s.fwType.Some? ==> FwType([s.fwType.value]) == s.fwType
    ensures s.hms.Some? ==> HmsCodes(EncodeCodes(s.hms.value)) == s.hms
  {
    hide HmsCodes, EncodeCodes, DiagStatus, EncodeDiag;
    if s.diag.Some? { DiagReadsBack(s.diag.value); }
    if s.hms.Some? { HmsReadsBack(s.hms.value); }
  }

  lemma DifferentSlots(s: Status)
    requires OnTheWire(s)
    ensures DifferentKeys(Slots(s))
  {
    hide One, Unsigned4, Unsigned8, Signed4, Signed8, EncodeDiag, EncodeCodes;
  }

  lemma SlotsAreFound(s: Status)
    requires OnTheWire(s)
    ensures var slots, kvs := Slots(s), Present(Slots(s));
            forall i :: 0 <= i < 10 ==> FindKey(kvs, slots[i].key) == slots[i].value
  {
    hide Slots, Present, FindKey, DifferentKeys;
    DifferentSlots(s);
    forall i | 0 <= i < 10 ensures FindKey(Present(Slots(s)), Slots(s)[i].key) == Slots(s)[i].value {
      PresentKey(Slots(s), i);
    }
  }

  /** Decoding the values of a status gives it back. */
  lemma StatusReadsBack(s: Status)
    requires OnTheWire(s)
    ensures DecodeStatus(Present(Slots(s))) == s
  {
    hide Present, FindKey, Unsigned, Signed, UpTo, LittleEndian, EncodeDiag, EncodeCodes, OnTheWire, FromSigned;
    SlotsAreFound(s);
    NumbersReadBack(s);
    OthersReadBack(s);
    var slots := Slots(s);
    assert slots[0].key == CUR_WORK_STATE && slots[1].key == CORE_TEMP && slots[2].key == POWERUP_CNT;
    assert slots[3].key == LOCAL_TIME_NOW && slots[4].key == LAST_SYNC_TIME && slots[5].key == TIME_OFFSET;
    assert slots[6].key == TIME_SYNC_TYPE && slots[7].key == LIDAR_DIAG_STATUS && slots[8].key == FW_TYPE;
    assert slots[9].key == HMS_CODE;
  }

  lemma {:induction false} EncodedSize(slots: seq<Slot>)
    requires forall i :: 0 <= i < |slots| ==> slots[i].value.Some? ==> |slots[i].value.value| <= 32
    ensures FitsLengthFields(Present(slots)) && |KeyValueList.Encoded(Present(slots))| <= 36 * |slots|
  {
    if slots != [] {
      var before, last := slots[..|slots| - 1], slots[|slots| - 1];
      EncodedSize(before);
      if last.value.Some? { EncodedOneMore(Present(before), KeyValue(last.key, last.value.value)); }
    }
  }

  lemma {:induction false} EncodedOneMore(kvs: seq<KeyValue>, kv: KeyValue)
    ensures |KeyValueList.Encoded(kvs + [kv])| == |KeyValueList.Encoded(kvs)| + 4 + |kv.value|
  {
    if kvs == [] {
      assert kvs + [kv] == [kv] && [kv][1..] == [];
      assert KeyValueList.Encoded([kv]) == Entry(kv) + KeyValueList.Encoded([]);
    } else {
      EncodedOneMore(kvs[1..], kv);
      assert (kvs + [kv])[1..] == kvs[1..] + [kv];
    }
  }

  lemma StatusIsSendable(s: Status)
    requires OnTheWire(s)
    ensures Sendable(Present(Slots(s)))
  {
    hide KeyValueList.Encoded, FitsLengthFields, Present;
    EncodedSize(Slots(s));
  }

  /**
    Whatever was pushed before: the datagram of any status whose fields are in range, with any command
    header of 0x0102 and any reserved bytes, is counted as a push, and each field it has is the merged
    status's from then on; the fields it lacks stay.
  */
  lemma PushedStatusArrives(pushes: seq<seq<Byte>>, spec: Spec, s: Status, r0: Byte, r1: Byte)
    requires OnTheWire(s) && spec.cmdId == 0x0102
    ensures var before := After(pushes);
            var after := After(pushes + [Datagram(spec, Present(Slots(s)), r0, r1)]);
            && after.pushes == before.pushes + 1 && after.badPackets == before.badPackets
            && Known(after) == CarriedOver(s, Known(before))
  {
    hide OnTheWire, Slots, Present, Datagram, ValuesOf, CarriedOver, DecodeStatus, StateEvent, HmsEvent, DiagEvent,
      Sorted, Merged, Sendable;
    var d := Datagram(spec, Present(Slots(s)), r0, r1);
    StatusIsSendable(s);
    DatagramCarriesItsValues(spec, Present(Slots(s)), r0, r1, []);
    assert d + [] == d;
    StatusReadsBack(s);
    Without(pushes, d);
    MergedIsCarriedOver(After(pushes), Present(Slots(s)));
  }
}
