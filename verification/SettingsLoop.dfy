/**
  Device::settings() (src/device.cpp): inquires the settings keys, and drops the key that the LiDAR
  does not support until it answers the rest. The LiDAR is a function from the requested keys to the
  bytes of its acknowledgement.
*/
module SettingsLoop {
  import opened Bytes
  import opened KeyValueList
  import opened Wrappers

  const SUCCESS: Byte := 0x00
  const PARAM_NOT_SUPPORT: Byte := 0x20

  const SETTINGS_KEYS: seq<U16> := [
    0x0000, 0x0001, 0x0004, 0x0005, 0x0006, 0x0007, 0x0012, 0x0015,
    0x0016, 0x0017, 0x0018, 0x0019, 0x001A, 0x001C, 0x0026, 0x002B]

  datatype InquireError = Failed | BadResponse | Rejected(retCode: Byte, errorKey: U16)

  /** The outcome of one exchange: no acknowledgement, or its payload. */
  datatype Reply = NoAck | Ack(data: seq<Byte>)

  /** What the LiDAR and the network do, which may change from one inquire to the next. */
  type Responder = (nat, seq<U16>) -> Reply

  /** The key was answered with a value. */
  predicate Answered(values: seq<KeyValue>, key: U16) {
    exists i :: 0 <= i < |values| && values[i].key == key && values[i].value != []
  }

  /** The position of the first requested key without an answer. */
  function FirstMissing(requested: seq<U16>, values: seq<KeyValue>): (k: nat)
    ensures k <= |requested|
    ensures forall i :: 0 <= i < k ==> Answered(values, requested[i])
    ensures k < |requested| ==> !Answered(values, requested[k])
  {
    if requested == [] then 0
    else
      var n := |requested| - 1;
      var k := FirstMissing(requested[..n], values);
      if k < n || !Answered(values, requested[n]) then k else |requested|
  }

  /** to_inquire_result. */
  function InquireResult(data: seq<Byte>, requested: seq<U16>): (r: Result<seq<KeyValue>, InquireError>) {
    match ParseInquireAck(data)
    case Err(_) => Err(BadResponse)
    case Ok(ack) =>
      if ack.retCode == SUCCESS then Ok(ack.values)
      else
        var missing := FirstMissing(requested, ack.values);
        if ack.retCode == PARAM_NOT_SUPPORT && missing < |requested| then Err(Rejected(ack.retCode, requested[missing]))
        else Err(Rejected(ack.retCode, if ack.values == [] then 0 else ack.values[0].key))
  }

  function Inquired(lidar: Responder, round: nat, keys: seq<U16>): (r: Result<seq<KeyValue>, InquireError>) {
    match lidar(round, keys)
    case NoAck => Err(Failed)
    case Ack(data) => InquireResult(data, keys)
  }

  /** The position of the first occurrence. */
  function Find(keys: seq<U16>, key: U16): (k: nat)
    ensures k <= |keys|
    ensures k < |keys| ==> keys[k] == key
    ensures key !in keys[..k]
    ensures k == |keys| <==> key !in keys
  {
    if keys == [] then 0
    else
      var n := |keys| - 1;
      var k := Find(keys[..n], key);
      if k < n then assert keys[k] == keys[..n][k]; k
      else if keys[n] == key then n
      else
        assert keys == keys[..n] + [keys[n]];
        |keys|
  }

  function Erase(keys: seq<U16>, k: nat): (r: seq<U16>)
    requires k < |keys|
    ensures |r| == |keys| - 1
  {
    keys[..k] + keys[k + 1..]
  }

  /** The key to drop before asking again, if there is one. */
  function ToDrop(keys: seq<U16>, e: InquireError): (k: nat)
    ensures k <= |keys|
  {
    if e.Rejected? && e.retCode == PARAM_NOT_SUPPORT then Find(keys, e.errorKey) else |keys|
  }

  /** The result with the keys of the last inquire and the number of inquires. */
  datatype Outcome = Outcome(result: Result<seq<KeyValue>, InquireError>, keys: seq<U16>, inquires: nat)

  /** The rounds from `round` on, against any LiDAR; each round that goes on drops a key. */
  function Rounds(lidar: Responder, keys: seq<U16>, round: nat): (o: Outcome)
    ensures round < o.inquires <= round + |keys| + 1
    decreases |keys|
  {
    match Inquired(lidar, round, keys)
    case Ok(values) => Outcome(Ok(values), keys, round + 1)
    case Err(e) =>
      var k := ToDrop(keys, e);
      if k == |keys| then Outcome(Err(e), keys, round + 1)
      else Rounds(lidar, Erase(keys, k), round + 1)
  }

  /** The loop of Device::settings(). */
  method Settings(lidar: Responder) returns (r: Result<seq<KeyValue>, InquireError>, inquires: nat)
    ensures var o := Rounds(lidar, SETTINGS_KEYS, 0);
            r == o.result && inquires == o.inquires <= 17
  {
    hide Inquired, ToDrop;
    var keys := SETTINGS_KEYS;
    inquires := 0;
    while true
      invariant Rounds(lidar, keys, inquires) == Rounds(lidar, SETTINGS_KEYS, 0)
      decreases |keys|
    {
      r := Inquired(lidar, inquires, keys);
      inquires := inquires + 1;
      if r.Ok? { return; }
      var k := ToDrop(keys, r.error);
      if k == |keys| { return; }
      keys := Erase(keys, k);
    }
  }

  // ---------------------------------------------------------------------------
  // A LiDAR that supports a set of keys
  // ---------------------------------------------------------------------------

  /** The values of the keys the LiDAR supports. */
  type Settable = m: map<U16, seq<Byte>> | forall k :: k in m ==> 0 < |m[k]| < 0x1_0000 witness map[]

  /** Its answer: the supported keys, and those unsupported ones it answers with an empty value. */
  function Answer(values: Settable, blanks: set<U16>, keys: seq<U16>): (r: seq<KeyValue>)
    ensures |r| <= |keys|
  {
    if keys == [] then []
    else
      var n := |keys| - 1;
      var before := Answer(values, blanks, keys[..n]);
      if keys[n] in values then before + [KeyValue(keys[n], values[keys[n]])]
      else if keys[n] in blanks then before + [KeyValue(keys[n], [])]
      else before
  }

  predicate AllSupported(values: Settable, keys: seq<U16>) {
    forall i :: 0 <= i < |keys| ==> keys[i] in values
  }

  function Acknowledged(values: Settable, blanks: set<U16>, keys: seq<U16>): (ack: InquireAck) {
    InquireAck(if AllSupported(values, keys) then SUCCESS else PARAM_NOT_SUPPORT, Answer(values, blanks, keys))
  }

  /** Such a LiDAR answers the same in every round. */
  ghost predicate Supports(lidar: Responder, values: Settable, blanks: set<U16>) {
    forall round, keys :: |keys| < 0x1_0000 ==>
                            lidar(round, keys) == Ack(EncodedInquireAck(Acknowledged(values, blanks, keys)))
  }

  function Supported(values: Settable, keys: seq<U16>): (r: seq<U16>)
    ensures |r| <= |keys|
  {
    if keys == [] then []
    else
      var n := |keys| - 1;
      var before := Supported(values, keys[..n]);
      if keys[n] in values then before + [keys[n]] else before
  }

  lemma {:induction false} AnswerFits(values: Settable, blanks: set<U16>, keys: seq<U16>)
    ensures FitsLengthFields(Answer(values, blanks, keys))
  {
    if keys != [] { AnswerFits(values, blanks, keys[..|keys| - 1]); }
  }

  lemma {:induction false} AnswersTheSupported(values: Settable, blanks: set<U16>, keys: seq<U16>, key: U16)
    ensures Answered(Answer(values, blanks, keys), key) <==> key in keys && key in values
  {
    if keys != [] {
      var n := |keys| - 1;
      AnswersTheSupported(values, blanks, keys[..n], key);
      var before, r := Answer(values, blanks, keys[..n]), Answer(values, blanks, keys);
      assert keys == keys[..n] + [keys[n]];
      if Answered(before, key) {
        var i :| 0 <= i < |before| && before[i].key == key && before[i].value != [];
        assert r[i] == before[i];
      } else if key in keys && key in values {
        assert r[|before|] == KeyValue(key, values[key]);
      }
    }
  }

  /** One exchange: all values if every key is supported, else the first unsupported key. */
  lemma Exchange(lidar: Responder, values: Settable, blanks: set<U16>, round: nat, keys: seq<U16>)
    requires Supports(lidar, values, blanks) && |keys| < 0x1_0000
    ensures AllSupported(values, keys) ==> Inquired(lidar, round, keys) == Ok(Answer(values, blanks, keys))
    ensures !AllSupported(values, keys) ==>
              var k := FirstMissing(keys, Answer(values, blanks, keys));
              && k < |keys| && keys[k] !in values
              && Inquired(lidar, round, keys) == Err(Rejected(PARAM_NOT_SUPPORT, keys[k]))
  {
    hide ParseInquireAck, EncodedInquireAck, Answer, Answered;
    AnswerFits(values, blanks, keys);
    InquireAckReadsBack(Acknowledged(values, blanks, keys));
    var answer := Answer(values, blanks, keys);
    forall i | 0 <= i < |keys| ensures Answered(answer, keys[i]) <==> keys[i] in values {
      AnswersTheSupported(values, blanks, keys, keys[i]);
    }
    assert lidar(round, keys) == Ack(EncodedInquireAck(Acknowledged(values, blanks, keys)));
  }

  predicate Distinct(keys: seq<U16>) {
    forall i, j :: 0 <= i < j < |keys| ==> keys[i] != keys[j]
  }

  lemma {:induction false} AllAreSupported(values: Settable, keys: seq<U16>)
    requires AllSupported(values, keys)
    ensures Supported(values, keys) == keys
  {
    if keys != [] {
      var n := |keys| - 1;
      AllAreSupported(values, keys[..n]);
      assert keys == keys[..n] + [keys[n]];
    }
  }

  lemma {:induction false} ErasingUnsupported(values: Settable, keys: seq<U16>, k: nat)
    requires k < |keys| && keys[k] !in values
    ensures Supported(values, Erase(keys, k)) == Supported(values, keys)
    decreases |keys|
  {
    var n := |keys| - 1;
    if k == n {
      assert Erase(keys, k) == keys[..n];
    } else {
      ErasingUnsupported(values, keys[..n], k);
      assert Erase(keys, k)[..n - 1] == Erase(keys[..n], k);
    }
  }

  lemma FindsFirst(keys: seq<U16>, k: nat)
    requires Distinct(keys) && k < |keys|
    ensures Find(keys, keys[k]) == k
  {
    var f := Find(keys, keys[k]);
    assert keys[k] in keys;
    assert f <= k;
  }

  /**
    Against a LiDAR that supports any set of keys, for any distinct keys asked for: no supported key is
    dropped, there is one inquire more than unsupported keys, and the result is the answer for exactly
    the supported keys.
  */
  lemma {:induction false} SupportedKeysRemain(lidar: Responder, values: Settable, blanks: set<U16>, keys: seq<U16>,
      round: nat)
    requires Supports(lidar, values, blanks) && Distinct(keys) && |keys| < 0x1_0000
    ensures var o, supported := Rounds(lidar, keys, round), Supported(values, keys);
            && o.keys == supported
            && o.inquires == round + |keys| - |supported| + 1
            && o.result == Ok(Answer(values, blanks, supported))
    decreases |keys|
  {
    hide Inquired, Answer, Supports, Supported;
    Exchange(lidar, values, blanks, round, keys);
    if AllSupported(values, keys) {
      AllAreSupported(values, keys);
    } else {
      var k := FirstMissing(keys, Answer(values, blanks, keys));
      FindsFirst(keys, k);
      ErasingUnsupported(values, keys, k);
      SupportedKeysRemain(lidar, values, blanks, Erase(keys, k), round + 1);
    }
  }

  /** The value found under a key of a full answer. */
  lemma {:induction false} FoundIfSupported(values: Settable, blanks: set<U16>, keys: seq<U16>, key: U16)
    requires Distinct(keys) && AllSupported(values, keys)
    ensures FindKey(Answer(values, blanks, keys), key) == if key in keys then Some(values[key]) else None
  {
    if keys != [] {
      var n := |keys| - 1;
      FoundIfSupported(values, blanks, keys[..n], key);
      FindInTwo(Answer(values, blanks, keys[..n]), KeyValue(keys[n], values[keys[n]]), key);
      assert keys == keys[..n] + [keys[n]];
    }
  }

  lemma {:induction false} SupportedOnes(values: Settable, keys: seq<U16>, key: U16)
    ensures key in Supported(values, keys) <==> key in keys && key in values
  {
    if keys != [] {
      var n := |keys| - 1;
      SupportedOnes(values, keys[..n], key);
      assert keys == keys[..n] + [keys[n]];
    }
  }

  lemma {:induction false} SupportedDistinct(values: Settable, keys: seq<U16>)
    requires Distinct(keys)
    ensures Distinct(Supported(values, keys)) && AllSupported(values, Supported(values, keys))
  {
    if keys != [] {
      var n := |keys| - 1;
      SupportedDistinct(values, keys[..n]);
      SupportedOnes(values, keys[..n], keys[n]);
    }
  }

  lemma KeysAreDistinct()
    ensures Distinct(SETTINGS_KEYS)
  {
  }

  /** settings() decodes each of its keys exactly if the LiDAR supports it, from the LiDAR's own value. */
  lemma SettingsAreTheSupportedOnes(lidar: Responder, values: Settable, blanks: set<U16>, key: U16)
    requires Supports(lidar, values, blanks) && key in SETTINGS_KEYS
    ensures var o := Rounds(lidar, SETTINGS_KEYS, 0);
            && o.result.Ok?
            && FindKey(o.result.value, key) == (if key in values then Some(values[key]) else None)
            && o.inquires == |SETTINGS_KEYS| - |Supported(values, SETTINGS_KEYS)| + 1
  {
    hide Rounds, Supports, Supported, Answer, FindKey, Distinct, AllSupported;
    KeysAreDistinct();
    SupportedKeysRemain(lidar, values, blanks, SETTINGS_KEYS, 0);
    SupportedDistinct(values, SETTINGS_KEYS);
    SupportedOnes(values, SETTINGS_KEYS, key);
    FoundIfSupported(values, blanks, Supported(values, SETTINGS_KEYS), key);
  }

  // ---------------------------------------------------------------------------
  // Other answers
  // ---------------------------------------------------------------------------

  /**
    Any other answer ends the loop at once: none, one that does not parse, or a return code other than
    success and not supported, which is reported with the first key of the answer.
  */
  lemma OtherAnswersEnd(lidar: Responder, keys: seq<U16>, round: nat, ack: InquireAck)
    requires |ack.values| < 0x1_0000 && FitsLengthFields(ack.values)
    ensures lidar(round, keys) == NoAck ==> Rounds(lidar, keys, round) == Outcome(Err(Failed), keys, round + 1)
    ensures lidar(round, keys).Ack? && ParseInquireAck(lidar(round, keys).data).Err? ==>
              Rounds(lidar, keys, round) == Outcome(Err(BadResponse), keys, round + 1)
    ensures lidar(round, keys) == Ack(EncodedInquireAck(ack)) && ack.retCode != 0x00 && ack.retCode != 0x20 ==>
              Rounds(lidar, keys, round)
              == Outcome(Err(Rejected(ack.retCode, if ack.values == [] then 0 else ack.values[0].key)), keys, round + 1)
  {
    hide ParseInquireAck, EncodedInquireAck;
    InquireAckReadsBack(ack);
  }

  /** "Not supported" with an answer to every key names the first key of the answer. */
  lemma UnclearRejection(lidar: Responder, keys: seq<U16>, round: nat, ack: InquireAck)
    requires |ack.values| < 0x1_0000 && FitsLengthFields(ack.values) && ack.retCode == 0x20
    requires lidar(round, keys) == Ack(EncodedInquireAck(ack))
    requires forall i :: 0 <= i < |keys| ==> Answered(ack.values, keys[i])
    ensures Inquired(lidar, round, keys) == Err(Rejected(0x20, if ack.values == [] then 0 else ack.values[0].key))
  {
    hide ParseInquireAck, EncodedInquireAck, Answered;
    InquireAckReadsBack(ack);
  }
}
