/**
  Key-value lists, the payload of the 0x0100 / 0x0101 / 0x0102 commands (src/protocol.cpp,
  src/keys.cpp): entries of a 16-bit key, a 16-bit length and that many value bytes.
*/
module KeyValueList {
  import opened Bytes
  import opened CommandFrame
  import opened Wrappers

  datatype KeyValue = KeyValue(key: U16, value: seq<Byte>)

  // ---------------------------------------------------------------------------
  // Format
  // ---------------------------------------------------------------------------

  /** One entry on the wire; the length field keeps only 16 bits. */
  function Entry(kv: KeyValue): (s: seq<Byte>)
    ensures |s| == 4 + |kv.value|
  {
    LittleEndian(kv.key, 2) + LittleEndian(|kv.value|, 2) + kv.value
  }

  function Encoded(kvs: seq<KeyValue>): (s: seq<Byte>) {
    if kvs == [] then [] else Entry(kvs[0]) + Encoded(kvs[1..])
  }

  /** What the bytes `s` hold, read as exactly `n` entries. */
  function Decoded(s: seq<Byte>, n: nat): (r: Result<seq<KeyValue>, ParseError>) {
    if n == 0 then
      if s == [] then Ok([]) else Err(KeyNumMismatch)
    else if |s| < 4 then Err(Truncated)
    else
      var len := ReadAt(s, 2, 2);
      if |s| - 4 < len then Err(Truncated)
      else Prefixed([FirstEntry(s)], Decoded(s[4 + len..], n - 1))
  }

  function FirstEntry(s: seq<Byte>): (kv: KeyValue)
    requires |s| >= 4 && |s| - 4 >= ReadAt(s, 2, 2)
  {
    ReadBound(s, 0, 2);
    Ranges();
    KeyValue(ReadAt(s, 0, 2), s[4..4 + ReadAt(s, 2, 2)])
  }

  function Prefixed(before: seq<KeyValue>, r: Result<seq<KeyValue>, ParseError>): Result<seq<KeyValue>, ParseError> {
    match r
    case Ok(kvs) => Ok(before + kvs)
    case Err(e) => Err(e)
  }

  // ---------------------------------------------------------------------------
  // The loops of the library
  // ---------------------------------------------------------------------------

  lemma PrefixedByParts(a: seq<KeyValue>, b: seq<KeyValue>, r: Result<seq<KeyValue>, ParseError>)
    ensures Prefixed([], r) == r
    ensures Prefixed(a, Prefixed(b, r)) == Prefixed(a + b, r)
  {
    if r.Ok? {
      assert [] + r.value == r.value;
      assert a + (b + r.value) == (a + b) + r.value;
    }
  }

  /** One entry of the walk, at an offset. */
  lemma EntryAt(s: seq<Byte>, off: nat, n: nat)
    requires off <= |s| && n > 0
    ensures |s| - off < 4 ==> Decoded(s[off..], n) == Err(Truncated)
    ensures |s| - off >= 4 ==>
              var len := ReadAt(s, off + 2, 2);
              && (|s| - off - 4 < len ==> Decoded(s[off..], n) == Err(Truncated))
              && (|s| - off - 4 >= len ==>
                    && ReadAt(s, off, 2) < 0x1_0000
                    && Decoded(s[off..], n) == Prefixed([KeyValue(ReadAt(s, off, 2), s[off + 4..off + 4 + len])],
                                                        Decoded(s[off + 4 + len..], n - 1)))
  {
    hide Value;
    var rest := s[off..];
    if |s| - off >= 4 {
      assert rest[0..2] == s[off..off + 2] && rest[2..4] == s[off + 2..off + 4];
      ReadBound(s, off, 2);
      Ranges();
      var len := ReadAt(s, off + 2, 2);
      if |s| - off - 4 >= len {
        assert rest[4..4 + len] == s[off + 4..off + 4 + len] && rest[4 + len..] == s[off + 4 + len..];
      }
    }
  }

  /** parse_key_value_list: walks the buffer with an offset. */
  method ParseList(s: seq<Byte>, keyNum: nat) returns (r: Result<seq<KeyValue>, ParseError>)
    ensures r == Decoded(s, keyNum)
  {
    hide Value;
    var out: seq<KeyValue> := [];
    var off: nat := 0;
    assert s[0..] == s;
    PrefixedByParts([], [], Decoded(s, keyNum));
    for n := 0 to keyNum
      invariant off <= |s|
      invariant Decoded(s, keyNum) == Prefixed(out, Decoded(s[off..], keyNum - n))
    {
      EntryAt(s, off, keyNum - n);
      if |s| - off < 4 { return Err(Truncated); }
      var key, len := ReadAt(s, off, 2), ReadAt(s, off + 2, 2);
      off := off + 4;
      if |s| - off < len { return Err(Truncated); }
      var kv := KeyValue(key, s[off..off + len]);
      PrefixedByParts(out, [kv], Decoded(s[off + len..], keyNum - n - 1));
      out := out + [kv];
      off := off + len;
    }
    assert out + [] == out;
    if off != |s| { return Err(KeyNumMismatch); }
    return Ok(out);
  }

  /** append_key_value_list. */
  method AppendList(prefix: seq<Byte>, kvs: seq<KeyValue>) returns (out: seq<Byte>)
    ensures out == prefix + Encoded(kvs)
  {
    out := prefix;
    for i := 0 to |kvs|
      invariant out + Encoded(kvs[i..]) == prefix + Encoded(kvs)
    {
      assert kvs[i..][1..] == kvs[i + 1..];
      out := out + LittleEndian(kvs[i].key, 2) + LittleEndian(|kvs[i].value|, 2) + kvs[i].value;
    }
    assert out + Encoded([]) == out;
  }

  // ---------------------------------------------------------------------------
  // Parsing and encoding are inverse
  // ---------------------------------------------------------------------------

  lemma EntryReadsBack(kv: KeyValue, rest: seq<Byte>)
    requires |kv.value| < 0x1_0000
    ensures ReadAt(Entry(kv) + rest, 2, 2) == |kv.value|
    ensures FirstEntry(Entry(kv) + rest) == kv
  {
    var s := Entry(kv) + rest;
    Ranges();
    assert s[0..2] == LittleEndian(kv.key, 2);
    ReadsWhatWasWritten(kv.key, 2);
    assert s[2..4] == LittleEndian(|kv.value|, 2);
    ReadsWhatWasWritten(|kv.value|, 2);
    assert s[4..4 + |kv.value|] == kv.value;
  }

  predicate FitsLengthFields(kvs: seq<KeyValue>) {
    forall i :: 0 <= i < |kvs| ==> |kvs[i].value| < 0x1_0000
  }

  lemma DecodedStep(kv: KeyValue, rest: seq<Byte>, n: nat)
    requires |kv.value| < 0x1_0000
    ensures Decoded(Entry(kv) + rest, n + 1) == Prefixed([kv], Decoded(rest, n))
  {
    EntryReadsBack(kv, rest);
    assert (Entry(kv) + rest)[4 + |kv.value|..] == rest;
  }

  lemma {:induction false} DecodedInvertsEncoded(kvs: seq<KeyValue>)
    requires FitsLengthFields(kvs)
    ensures Decoded(Encoded(kvs), |kvs|) == Ok(kvs)
  {
    if kvs != [] {
      DecodedInvertsEncoded(kvs[1..]);
      DecodedStep(kvs[0], Encoded(kvs[1..]), |kvs| - 1);
      assert [kvs[0]] + kvs[1..] == kvs;
    }
  }

  /** Any accepted buffer is exactly the encoding of its entries. */
  lemma {:induction false} AcceptedIsCanonical(s: seq<Byte>, n: nat)
    requires Decoded(s, n).Ok?
    ensures |Decoded(s, n).value| == n
    ensures FitsLengthFields(Decoded(s, n).value)
    ensures Encoded(Decoded(s, n).value) == s
  {
    hide LittleEndian, Value;
    if n != 0 {
      var len := ReadAt(s, 2, 2);
      AcceptedIsCanonical(s[4 + len..], n - 1);
      ReadBound(s, 2, 2);
      Ranges();
      WritesWhatWasRead(s[0..2]);
      WritesWhatWasRead(s[2..4]);
      assert Entry(FirstEntry(s)) == s[..4 + len];
      assert Decoded(s, n).value[1..] == Decoded(s[4 + len..], n - 1).value;
    }
  }

  /** The round trip holds exactly for the values whose length the 16-bit field can carry. */
  lemma RoundTrip(kvs: seq<KeyValue>)
    ensures Decoded(Encoded(kvs), |kvs|) == Ok(kvs) <==> FitsLengthFields(kvs)
  {
    if FitsLengthFields(kvs) {
      DecodedInvertsEncoded(kvs);
    }
    if Decoded(Encoded(kvs), |kvs|) == Ok(kvs) {
      AcceptedIsCanonical(Encoded(kvs), |kvs|);
    }
  }

  /** A value of 65536 bytes is encoded with a length of 0, and the list is then refused. */
  lemma LongValueIsRefused(kv: KeyValue)
    requires |kv.value| == 0x1_0000
    ensures Decoded(Encoded([kv]), 1) == Err(KeyNumMismatch)
  {
    hide FirstEntry, Value;
    var s := Encoded([kv]);
    var none: seq<KeyValue> := [];
    assert [kv][1..] == none && Encoded(none) == [];
    assert s == Entry(kv) + Encoded(none);
    assert s[2..4] == LittleEndian(|kv.value|, 2);
    TwoBytes(0x1_0000);
    TwoBytes(0);
    Ranges();
    ReadsWhatWasWritten(0, 2);
    assert ReadAt(s, 2, 2) == 0;
    assert |s[4..]| == 0x1_0000;
  }

  const LONG_VALUE: seq<Byte> := seq(0x1_0000, _ => 0)

  lemma LongZerosAreRefused()
    ensures Decoded(Encoded([KeyValue(1, LONG_VALUE)]), 1) == Err(KeyNumMismatch)
  {
    LongValueIsRefused(KeyValue(1, LONG_VALUE));
  }

  lemma TwoBytes(v: nat)
    ensures LittleEndian(v, 2) == [v % 256, v / 256 % 256]
  {
    assert LittleEndian(v / 256 / 256, 0) == [];
  }

  // ---------------------------------------------------------------------------
  // Payloads that carry a list
  // ---------------------------------------------------------------------------

  datatype InquireAck = InquireAck(retCode: Byte, values: seq<KeyValue>)

  /** parse_param_inquire_ack. */
  function ParseInquireAck(data: seq<Byte>): (r: Result<InquireAck, ParseError>) {
    if |data| < 3 then Err(Truncated)
    else
      match Decoded(data[3..], ReadAt(data, 1, 2))
      case Ok(values) => Ok(InquireAck(data[0], values))
      case Err(e) => Err(e)
  }

  /** What a LiDAR sends for the 0x0101 ACK. */
  function EncodedInquireAck(ack: InquireAck): (s: seq<Byte>) {
    [ack.retCode] + LittleEndian(|ack.values|, 2) + Encoded(ack.values)
  }

  lemma InquireAckReadsBack(ack: InquireAck)
    requires |ack.values| < 0x1_0000 && FitsLengthFields(ack.values)
    ensures ParseInquireAck(EncodedInquireAck(ack)) == Ok(ack)
  {
    var s := EncodedInquireAck(ack);
    Ranges();
    assert s[1..3] == LittleEndian(|ack.values|, 2);
    ReadsWhatWasWritten(|ack.values|, 2);
    assert s[3..] == Encoded(ack.values);
    DecodedInvertsEncoded(ack.values);
  }

  /** parse_info_push. */
  function ParseInfoPush(data: seq<Byte>): (r: Result<seq<KeyValue>, ParseError>) {
    if |data| < 4 then Err(Truncated) else Decoded(data[4..], ReadAt(data, 0, 2))
  }

  /** What a LiDAR pushes: the number of keys, two reserved bytes and the keys. */
  function EncodedInfoPush(kvs: seq<KeyValue>, r0: Byte, r1: Byte): (s: seq<Byte>) {
    LittleEndian(|kvs|, 2) + [r0, r1] + Encoded(kvs)
  }

  /** Whatever the reserved bytes hold, a push parses back to its keys. */
  lemma InfoPushReadsBack(kvs: seq<KeyValue>, r0: Byte, r1: Byte)
    requires |kvs| < 0x1_0000 && FitsLengthFields(kvs)
    ensures ParseInfoPush(EncodedInfoPush(kvs, r0, r1)) == Ok(kvs)
  {
    hide LittleEndian, Value, Decoded;
    var s := EncodedInfoPush(kvs, r0, r1);
    Ranges();
    assert s[0..2] == LittleEndian(|kvs|, 2);
    ReadsWhatWasWritten(|kvs|, 2);
    assert s[4..] == Encoded(kvs);
    DecodedInvertsEncoded(kvs);
  }

  /** find_key: the value of the first entry with that key. */
  function FindKey(kvs: seq<KeyValue>, key: U16): (r: Option<seq<Byte>>) {
    if kvs == [] then None
    else if kvs[0].key == key then Some(kvs[0].value)
    else FindKey(kvs[1..], key)
  }

  lemma {:induction false} FindInTwo(kvs: seq<KeyValue>, last: KeyValue, key: U16)
    ensures FindKey(kvs + [last], key)
            == match FindKey(kvs, key)
               case Some(v) => Some(v)
               case None => if last.key == key then Some(last.value) else None
  {
    if kvs == [] {
      assert kvs + [last] == [last];
    } else {
      FindInTwo(kvs[1..], last, key);
      assert (kvs + [last])[1..] == kvs[1..] + [last];
    }
  }
}
