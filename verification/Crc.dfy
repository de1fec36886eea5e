/**
  The two CRCs of the protocol (include/livox/mid360/crc.hpp). The reference is the bit-by-bit
  polynomial division: CRC-16/CCITT-FALSE as the pure Python implementation writes it, CRC-32 as
  section 8 of RFC 1952 defines it. The table-driven loops are proved against that reference.
*/
module Crc {
  import opened Bits
  import opened Bytes
  import opened Folding

  // ---------------------------------------------------------------------------
  // Bitwise reference
  // ---------------------------------------------------------------------------

  /** The four bits of a hexadecimal digit. */
  function Hex(digit: nat): (s: seq<bool>)
    requires digit < 16
    ensures |s| == 4
  {
    [digit % 2 == 1, digit / 2 % 2 == 1, digit / 4 % 2 == 1, digit / 8 == 1]
  }

  /** 0x1021, lowest digit first. */
  const POLY16: Word16 := Hex(1) + Hex(2) + Hex(0) + Hex(1)

  /** 0xEDB88320, the reflection of 0x04C11DB7, lowest digit first. */
  const POLY32: Word32 := Hex(0) + Hex(2) + Hex(3) + Hex(8) + Hex(8) + Hex(0xB) + Hex(0xD) + Hex(0xE)

  /** One bit of the non-reflected division: the bit leaves at the top. */
  function Shift16(c: Word16): Word16 {
    var shifted := [false] + c[..15];
    if c[15] then Xor(shifted, POLY16) else shifted
  }

  /** One bit of the reflected division: the bit leaves at the bottom. */
  function Shift32(c: Word32): Word32 {
    var shifted := c[1..] + [false];
    if c[0] then Xor(POLY32, shifted) else shifted
  }

  function Xor16(a: Word16, b: Word16): Word16 {
    Xor(a, b)
  }

  function Xor32(a: Word32, b: Word32): Word32 {
    Xor(a, b)
  }

  /** A byte in the top eight bits. */
  function Top16(b: Byte): Word16 {
    Zeros(8) + OfByte(b)
  }

  /** A byte in the bottom eight bits. */
  function Bottom32(b: Byte): Word32 {
    OfByte(b) + Zeros(24)
  }

  /** The byte enters at the top and eight bits are divided out. */
  function Step16(c: Word16, b: Byte): Word16 {
    Iterate<Word16>(Shift16, Xor16(c, Top16(b)), 8)
  }

  /** The byte enters at the bottom and eight bits are divided out. */
  function Step32(c: Word32, b: Byte): Word32 {
    Iterate<Word32>(Shift32, Xor32(c, Bottom32(b)), 8)
  }

  /** CRC-16 of `data`, continuing from `state`. */
  function Crc16(data: seq<Byte>, state: Word16): Word16 {
    Fold<Word16>(Step16, data, state)
  }

  /** CRC-32 of `data`, continuing from the previous final result `state`. */
  function Crc32(data: seq<Byte>, state: Word32): Word32 {
    Xor32(Fold<Word32>(Step32, data, Xor32(state, Ones(32))), Ones(32))
  }

  // ---------------------------------------------------------------------------
  // The division is linear and loses nothing
  // ---------------------------------------------------------------------------

  lemma ShiftXor16(a: Word16, b: Word16)
    ensures Shift16(Xor16(a, b)) == Xor16(Shift16(a), Shift16(b))
  {
    assert ([false] + Xor16(a, b)[..15]) == Xor([false] + a[..15], [false] + b[..15]);
  }

  lemma ShiftXor32(a: Word32, b: Word32)
    ensures Shift32(Xor32(a, b)) == Xor32(Shift32(a), Shift32(b))
  {
    assert Xor32(a, b)[1..] + [false] == Xor(a[1..] + [false], b[1..] + [false]);
  }

  lemma Shift16IsLinear()
    ensures Linear<Word16>(Shift16, Xor16)
  {
    forall a: Word16, b: Word16 ensures Shift16(Xor16(a, b)) == Xor16(Shift16(a), Shift16(b)) {
      ShiftXor16(a, b);
    }
  }

  lemma Shift32IsLinear()
    ensures Linear<Word32>(Shift32, Xor32)
  {
    forall a: Word32, b: Word32 ensures Shift32(Xor32(a, b)) == Xor32(Shift32(a), Shift32(b)) {
      ShiftXor32(a, b);
    }
  }

  /** The lowest bit after the shift says whether the polynomial was subtracted. */
  lemma Shift16IsInjective()
    ensures Injective<Word16>(Shift16)
  {
    forall a: Word16, b: Word16 | Shift16(a) == Shift16(b) ensures a == b {
      assert Shift16(a)[0] == a[15] && Shift16(b)[0] == b[15];
      if a[15] { XorInjective([false] + a[..15], [false] + b[..15], POLY16); }
      assert a == ([false] + a[..15])[1..] + [a[15]];
      assert b == ([false] + b[..15])[1..] + [b[15]];
    }
  }

  /** The highest bit after the shift says whether the polynomial was subtracted. */
  lemma Shift32IsInjective()
    ensures Injective<Word32>(Shift32)
  {
    forall a: Word32, b: Word32 | Shift32(a) == Shift32(b) ensures a == b {
      assert Shift32(a)[31] == a[0] && Shift32(b)[31] == b[0];
      if a[0] {
        XorCommutes(POLY32, a[1..] + [false]);
        XorCommutes(POLY32, b[1..] + [false]);
        XorInjective(a[1..] + [false], b[1..] + [false], POLY32);
      }
      assert a == [a[0]] + (a[1..] + [false])[..31];
      assert b == [b[0]] + (b[1..] + [false])[..31];
    }
  }

  lemma XorCommutes(a: seq<bool>, b: seq<bool>)
    requires |a| == |b|
    ensures Xor(a, b) == Xor(b, a)
  {
  }

  // ---------------------------------------------------------------------------
  // One table look-up divides out one byte
  // ---------------------------------------------------------------------------

  /** What the table holds at index `i`: the byte `i` divided out of an empty register. */
  function Entry16(i: Byte): Word16 {
    Iterate<Word16>(Shift16, Top16(i), 8)
  }

  function Entry32(i: Byte): Word32 {
    Iterate<Word32>(Shift32, Bottom32(i), 8)
  }

  /** The low byte moves up through plain shifts. */
  lemma {:induction false} LowByteMovesUp(low: Octet, k: nat)
    requires k <= 8
    ensures Iterate<Word16>(Shift16, low + Zeros(8), k) == Zeros(k) + low + Zeros(8 - k)
  {
    if k != 0 {
      LowByteMovesUp(low, k - 1);
      assert [false] + (Zeros(k - 1) + low + Zeros(9 - k))[..15] == Zeros(k) + low + Zeros(8 - k);
    }
  }

  /** The high bytes move down through plain shifts. */
  lemma {:induction false} HighBytesMoveDown(high: seq<bool>, k: nat)
    requires |high| == 24 && k <= 8
    ensures Iterate<Word32>(Shift32, Zeros(8) + high, k) == Zeros(8 - k) + high + Zeros(k)
  {
    if k != 0 {
      HighBytesMoveDown(high, k - 1);
      assert (Zeros(9 - k) + high + Zeros(k - 1))[1..] + [false] == Zeros(8 - k) + high + Zeros(k);
    }
  }

  lemma TableStep16(c: Word16, b: Byte, index: Byte)
    requires OfByte(index) == Xor(c[8..], OfByte(b))
    ensures Step16(c, b) == Xor16(Zeros(8) + c[..8], Entry16(index))
  {
    var low: Word16 := c[..8] + Zeros(8);
    assert Xor16(c, Top16(b)) == Xor16(low, Top16(index));
    Shift16IsLinear();
    IterateIsLinear<Word16>(Shift16, Xor16, low, Top16(index), 8);
    LowByteMovesUp(c[..8], 8);
    assert Zeros(8) + c[..8] + Zeros(0) == Zeros(8) + c[..8];
  }

  lemma TableStep32(c: Word32, b: Byte, index: Byte)
    requires OfByte(index) == Xor(c[..8], OfByte(b))
    ensures Step32(c, b) == Xor32(Entry32(index), c[8..] + Zeros(8))
  {
    var high: Word32 := Zeros(8) + c[8..];
    assert Xor32(c, Bottom32(b)) == Xor32(Bottom32(index), high);
    Shift32IsLinear();
    IterateIsLinear<Word32>(Shift32, Xor32, Bottom32(index), high, 8);
    HighBytesMoveDown(c[8..], 8);
    assert Zeros(0) + c[8..] + Zeros(8) == c[8..] + Zeros(8);
  }

  // ---------------------------------------------------------------------------
  // Table-driven implementation
  // ---------------------------------------------------------------------------

  predicate IsTable16(t: seq<Word16>) {
    |t| == 256 && forall i :: 0 <= i < 256 ==> t[i] == Entry16(i)
  }

  predicate IsTable32(t: seq<Word32>) {
    |t| == 256 && forall i :: 0 <= i < 256 ==> t[i] == Entry32(i)
  }

  /** make_crc16_table. */
  method MakeTable16() returns (t: array<Word16>)
    ensures fresh(t) && IsTable16(t[..])
  {
    t := new Word16[256];
    for i := 0 to 256
      invariant forall j :: 0 <= j < i ==> t[j] == Entry16(j)
    {
      var c: Word16 := Top16(i);
      for k := 0 to 8
        invariant c == Iterate<Word16>(Shift16, Top16(i), k)
      {
        ghost var before := c;
        var shifted := [false] + c[..15];
        c := if c[15] then Xor(shifted, POLY16) else shifted;
        assert c == Shift16(before);
      }
      t[i] := c;
    }
  }

  /** make_crc32_table. */
  method MakeTable32() returns (t: array<Word32>)
    ensures fresh(t) && IsTable32(t[..])
  {
    t := new Word32[256];
    for i := 0 to 256
      invariant forall j :: 0 <= j < i ==> t[j] == Entry32(j)
    {
      var c: Word32 := Bottom32(i);
      for k := 0 to 8
        invariant c == Iterate<Word32>(Shift32, Bottom32(i), k)
      {
        ghost var before := c;
        var shifted := c[1..] + [false];
        c := if c[0] then Xor(POLY32, shifted) else shifted;
        assert c == Shift32(before);
      }
      t[i] := c;
    }
  }

  /** crc16_ccitt_false: the table-driven loop is the bitwise division, from any state on. */
  method CcittFalse16(table: seq<Word16>, data: seq<Byte>, state: Word16) returns (r: Word16)
    requires IsTable16(table)
    ensures r == Crc16(data, state)
  {
    r := state;
    for n := 0 to |data|
      invariant r == Crc16(data[..n], state)
    {
      var bits: Octet := Xor(r[8..], OfByte(data[n]));
      OctetBound(bits);
      BitsOfNumber(bits);
      var index := ToNat(bits);
      TableStep16(r, data[n], index);
      assert data[..n + 1][..n] == data[..n];
      r := Xor16(Zeros(8) + r[..8], table[index]);
    }
    assert data[..|data|] == data;
  }

  /** crc32: the table-driven loop is the bitwise division, from any previous result on. */
  method Zlib32(table: seq<Word32>, data: seq<Byte>, state: Word32) returns (r: Word32)
    requires IsTable32(table)
    ensures r == Crc32(data, state)
  {
    var c: Word32 := Xor32(state, Ones(32));
    for n := 0 to |data|
      invariant c == Fold<Word32>(Step32, data[..n], Xor32(state, Ones(32)))
    {
      var bits: Octet := Xor(c[..8], OfByte(data[n]));
      OctetBound(bits);
      BitsOfNumber(bits);
      var index := ToNat(bits);
      TableStep32(c, data[n], index);
      assert data[..n + 1][..n] == data[..n];
      c := Xor32(table[index], c[8..] + Zeros(8));
    }
    assert data[..|data|] == data;
    r := Xor32(c, Ones(32));
  }

  // ---------------------------------------------------------------------------
  // Continuing over a split
  // ---------------------------------------------------------------------------

  /** Passing the previous result as the state continues the CRC-16, whatever the split. */
  lemma Crc16Continues(a: seq<Byte>, b: seq<Byte>, state: Word16)
    ensures Crc16(a + b, state) == Crc16(b, Crc16(a, state))
  {
    FoldContinues<Word16>(Step16, a, b, state);
  }

  /** Passing the previous final result as the state continues the CRC-32, whatever the split. */
  lemma Crc32Continues(a: seq<Byte>, b: seq<Byte>, state: Word32)
    ensures Crc32(a + b, state) == Crc32(b, Crc32(a, state))
  {
    var start: Word32 := Xor32(state, Ones(32));
    FoldContinues<Word32>(Step32, a, b, start);
    XorTwice(Fold<Word32>(Step32, a, start), Ones(32));
  }

  // ---------------------------------------------------------------------------
  // A changed byte changes the CRC
  // ---------------------------------------------------------------------------

  lemma Step16IsFaithful()
    ensures Faithful<Word16>(Step16)
  {
    Shift16IsInjective();
    forall x: Word16, y: Word16, b: Byte | Step16(x, b) == Step16(y, b) ensures x == y {
      IterateIsInjective<Word16>(Shift16, Xor16(x, Top16(b)), Xor16(y, Top16(b)), 8);
      XorInjective(x, y, Top16(b));
    }
    forall x: Word16, a: Byte, b: Byte | Step16(x, a) == Step16(x, b) ensures a == b {
      IterateIsInjective<Word16>(Shift16, Xor16(x, Top16(a)), Xor16(x, Top16(b)), 8);
      XorCommutes(x, Top16(a));
      XorCommutes(x, Top16(b));
      XorInjective(Top16(a), Top16(b), x);
      assert OfByte(a) == Top16(a)[8..] && OfByte(b) == Top16(b)[8..];
      ByteInjective(a, b);
    }
  }

  lemma Step32IsFaithful()
    ensures Faithful<Word32>(Step32)
  {
    Shift32IsInjective();
    forall x: Word32, y: Word32, b: Byte | Step32(x, b) == Step32(y, b) ensures x == y {
      IterateIsInjective<Word32>(Shift32, Xor32(x, Bottom32(b)), Xor32(y, Bottom32(b)), 8);
      XorInjective(x, y, Bottom32(b));
    }
    forall x: Word32, a: Byte, b: Byte | Step32(x, a) == Step32(x, b) ensures a == b {
      IterateIsInjective<Word32>(Shift32, Xor32(x, Bottom32(a)), Xor32(x, Bottom32(b)), 8);
      XorCommutes(x, Bottom32(a));
      XorCommutes(x, Bottom32(b));
      XorInjective(Bottom32(a), Bottom32(b), x);
      assert OfByte(a) == Bottom32(a)[..8] && OfByte(b) == Bottom32(b)[..8];
      ByteInjective(a, b);
    }
  }

  /** A single changed byte changes the CRC-16 value, from any state on. */
  lemma Crc16SeesOneByte(s: seq<Byte>, t: seq<Byte>, at: nat, state: Word16)
    requires DifferAt(s, t, at)
    ensures ToNat(Crc16(s, state)) != ToNat(Crc16(t, state))
  {
    Step16IsFaithful();
    FoldSeesOneByte<Word16>(Step16, s, t, at, state);
    if ToNat(Crc16(s, state)) == ToNat(Crc16(t, state)) {
      NumberInjective(Crc16(s, state), Crc16(t, state));
    }
  }

  /** A single changed byte changes the CRC-32 value, from any previous result on. */
  lemma Crc32SeesOneByte(s: seq<Byte>, t: seq<Byte>, at: nat, state: Word32)
    requires DifferAt(s, t, at)
    ensures ToNat(Crc32(s, state)) != ToNat(Crc32(t, state))
  {
    var start: Word32 := Xor32(state, Ones(32));
    Step32IsFaithful();
    FoldSeesOneByte<Word32>(Step32, s, t, at, start);
    if ToNat(Crc32(s, state)) == ToNat(Crc32(t, state)) {
      NumberInjective(Crc32(s, state), Crc32(t, state));
      XorInjective(Fold<Word32>(Step32, s, start), Fold<Word32>(Step32, t, start), Ones(32));
    }
  }
}
