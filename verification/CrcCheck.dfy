/**
  Two inputs that fix the parameters of the CRCs: bytes equal to the first register empty it, and one
  more bit then leaves the polynomial in it.
*/
module CrcCheck {
  import opened Bits
  import opened Bytes
  import opened CommandFrame
  import opened Crc
  import opened Folding

  // ---------------------------------------------------------------------------
  // The polynomials as numbers
  // ---------------------------------------------------------------------------

  lemma DigitFirst(digit: nat, rest: seq<bool>)
    requires digit < 16
    ensures ToNat(Hex(digit) + rest) == digit + 16 * ToNat(rest)
  {
    var s := Hex(digit) + rest;
    var s1, s2, s3 := s[1..], s[2..], s[3..];
    assert s1[1..] == s2 && s2[1..] == s3 && s3[1..] == rest;
    assert ToNat(s2) == (if s[2] then 1 else 0) + 2 * ((if s[3] then 1 else 0) + 2 * ToNat(rest));
    assert digit == digit % 2 + 2 * (digit / 2 % 2) + 4 * (digit / 4 % 2) + 8 * (digit / 8);
  }

  lemma Polynomial16()
    ensures ToNat(POLY16) == 0x1021
  {
    hide ToNat, Hex;
    var top: seq<bool> := Hex(1) + [];
    NoDigits();
    DigitFirst(1, []);
    DigitFirst(0, top);
    DigitFirst(2, Hex(0) + top);
    DigitFirst(1, Hex(2) + (Hex(0) + top));
    assert POLY16 == Hex(1) + (Hex(2) + (Hex(0) + top));
  }

  lemma Polynomial32()
    ensures ToNat(POLY32) == 0xEDB8_8320
  {
    hide ToNat, Hex;
    var top: seq<bool> := Hex(0xE) + [];
    NoDigits();
    DigitFirst(0xE, []);
    DigitFirst(0xD, top);
    DigitFirst(0xB, Hex(0xD) + top);
    var high := Hex(8) + (Hex(0xB) + (Hex(0xD) + top));
    DigitFirst(8, Hex(0xB) + (Hex(0xD) + top));
    DigitFirst(8, high);
    DigitFirst(3, Hex(8) + high);
    DigitFirst(2, Hex(3) + (Hex(8) + high));
    DigitFirst(0, Hex(2) + (Hex(3) + (Hex(8) + high)));
    assert high == Hex(8) + Hex(0xB) + Hex(0xD) + Hex(0xE);
    assert POLY32 == Hex(0) + (Hex(2) + (Hex(3) + (Hex(8) + high)));
  }

  lemma NoDigits()
    ensures ToNat([]) == 0
  {
  }

  lemma {:induction false} Complement(s: seq<bool>)
    ensures ToNat(Xor(s, Ones(|s|))) + ToNat(s) == Power2(|s|) - 1
  {
    if s != [] {
      Complement(s[1..]);
      assert Xor(s, Ones(|s|))[1..] == Xor(s[1..], Ones(|s| - 1));
    }
  }

  lemma {:induction false} AllOnes(n: nat)
    ensures OfNat(Power2(n) - 1, n) == Ones(n)
  {
    if n > 0 {
      AllOnes(n - 1);
      assert (Power2(n) - 1) % 2 == 1 && (Power2(n) - 1) / 2 == Power2(n - 1) - 1;
      assert Ones(n) == [true] + Ones(n - 1);
    }
  }

  lemma FullByte()
    ensures OfByte(0xFF) == Ones(8)
  {
    assert Power2(2) == 4 && Power2(4) == 16 && Power2(6) == 64 && Power2(8) == 256;
    AllOnes(8);
  }

  // ---------------------------------------------------------------------------
  // CRC-16
  // ---------------------------------------------------------------------------

  /** A lone bit moves up through plain shifts. */
  lemma {:induction false} BitMovesUp(k: nat)
    requires k <= 7
    ensures Iterate<Word16>(Shift16, Zeros(8) + [true] + Zeros(7), k) == Zeros(8 + k) + [true] + Zeros(7 - k)
  {
    if k != 0 {
      BitMovesUp(k - 1);
      assert [false] + (Zeros(7 + k) + [true] + Zeros(8 - k))[..15] == Zeros(8 + k) + [true] + Zeros(7 - k);
    }
  }

  /** A full byte empties the top of a register whose top is full. */
  lemma Empties16(low: Octet)
    ensures Step16(low + Ones(8), 0xFF) == Zeros(8) + low
  {
    FullByte();
    assert Xor16(low + Ones(8), Top16(0xFF)) == low + Zeros(8);
    LowByteMovesUp(low, 8);
    assert Zeros(8) + low + Zeros(0) == Zeros(8) + low;
  }

  lemma OneBit16()
    ensures Step16(Zeros(16), 1) == POLY16
  {
    hide POLY16;
    assert OfNat(0, 7) == Zeros(7) by { NoBits(7); }
    assert OfByte(1) == [true] + Zeros(7);
    assert Xor16(Zeros(16), Top16(1)) == Zeros(8) + [true] + Zeros(7);
    BitMovesUp(7);
    var c: Word16 := Zeros(15) + [true];
    assert Zeros(15) + [true] + Zeros(0) == c;
    assert [false] + c[..15] == Zeros(16);
    XorWithNone(POLY16);
  }

  lemma {:induction false} NoBits(n: nat)
    ensures OfNat(0, n) == Zeros(n)
  {
    if n != 0 {
      NoBits(n - 1);
      assert Zeros(n) == [false] + Zeros(n - 1);
    }
  }

  lemma ThreeSteps(a: Byte, b: Byte, c: Byte, state: Word16)
    ensures Crc16([a, b, c], state) == Step16(Step16(Step16(state, a), b), c)
  {
    hide Step16;
    assert [a, b, c][..2] == [a, b] && [a, b][..1] == [a] && [a][..0] == [];
    var f: (Word16, Byte) -> Word16 := Step16;
    assert Fold(f, [a], state) == f(Fold(f, [], state), a);
    assert Fold(f, [a, b], state) == f(Fold(f, [a], state), b);
  }

  /** The header CRC starts from 0xFFFF and divides by 0x1021, highest bit first. */
  lemma HeaderCheckValue()
    ensures HeaderCrc([0xFF, 0xFF, 0x01]) == 0x1021
  {
    hide Step16, ToNat, POLY16;
    ThreeSteps(0xFF, 0xFF, 0x01, Ones(16));
    assert Ones(16) == Ones(8) + Ones(8) && Zeros(16) == Zeros(8) + Zeros(8);
    Empties16(Ones(8));
    Empties16(Zeros(8));
    OneBit16();
    Polynomial16();
  }

  // ---------------------------------------------------------------------------
  // CRC-32
  // ---------------------------------------------------------------------------

  lemma {:induction false} BitMovesDown(k: nat)
    requires k <= 7
    ensures Iterate<Word32>(Shift32, Zeros(7) + [true] + Zeros(24), k) == Zeros(7 - k) + [true] + Zeros(24 + k)
  {
    if k != 0 {
      BitMovesDown(k - 1);
      assert (Zeros(8 - k) + [true] + Zeros(23 + k))[1..] + [false] == Zeros(7 - k) + [true] + Zeros(24 + k);
    }
  }

  lemma Empties32(high: seq<bool>)
    requires |high| == 24
    ensures Step32(Ones(8) + high, 0xFF) == high + Zeros(8)
  {
    FullByte();
    assert Xor32(Ones(8) + high, Bottom32(0xFF)) == Zeros(8) + high;
    HighBytesMoveDown(high, 8);
    assert Zeros(0) + high + Zeros(8) == high + Zeros(8);
  }

  lemma OneBit32()
    ensures Step32(Zeros(32), 0x80) == POLY32
  {
    hide POLY32;
    assert OfNat(0x80, 8) == Zeros(7) + [true] by { HighBit(7); }
    assert Xor32(Zeros(32), Bottom32(0x80)) == Zeros(7) + [true] + Zeros(24);
    BitMovesDown(7);
    var c: Word32 := [true] + Zeros(31);
    assert Zeros(0) + [true] + Zeros(31) == c;
    assert c[1..] + [false] == Zeros(32);
    XorWithNone(POLY32);
  }

  lemma XorWithNone(c: seq<bool>)
    ensures Xor(c, Zeros(|c|)) == c && Xor(Zeros(|c|), c) == c
  {
  }

  lemma {:induction false} HighBit(n: nat)
    ensures OfNat(Power2(n), n + 1) == Zeros(n) + [true]
  {
    if n != 0 {
      HighBit(n - 1);
      assert Power2(n) % 2 == 0 && Power2(n) / 2 == Power2(n - 1);
      assert Zeros(n) == [false] + Zeros(n - 1);
    } else {
      assert OfNat(0, 0) == [];
    }
  }

  lemma EmptiesAll32()
    ensures Fold<Word32>(Step32, [0xFF, 0xFF, 0xFF, 0xFF], Ones(32)) == Zeros(32)
  {
    hide Step32;
    var f: (Word32, Byte) -> Word32, c: Word32 := Step32, Ones(32);
    var d: seq<Byte> := [0xFF, 0xFF, 0xFF, 0xFF];
    assert d[..3] == [0xFF, 0xFF, 0xFF] && d[..3][..2] == [0xFF, 0xFF] && d[..3][..2][..1] == [0xFF];
    assert d[..3][..2][..1][..0] == [];
    assert c == Ones(8) + Ones(24);
    Empties32(Ones(24));
    assert Ones(24) + Zeros(8) == Ones(8) + (Ones(16) + Zeros(8));
    Empties32(Ones(16) + Zeros(8));
    assert Ones(16) + Zeros(8) + Zeros(8) == Ones(8) + (Ones(8) + Zeros(16));
    Empties32(Ones(8) + Zeros(16));
    assert Ones(8) + Zeros(16) + Zeros(8) == Ones(8) + Zeros(24);
    Empties32(Zeros(24));
    assert Zeros(24) + Zeros(8) == Zeros(32);
    assert Fold(f, [], c) == c;
    assert Fold(f, d[..3][..2][..1], c) == f(c, 0xFF);
    assert Fold(f, d[..3][..2], c) == f(f(c, 0xFF), 0xFF);
    assert Fold(f, d[..3], c) == f(f(f(c, 0xFF), 0xFF), 0xFF);
  }

  /** The payload CRC starts from 0xFFFFFFFF, divides by 0xEDB88320 lowest bit first and is inverted. */
  lemma PayloadCheckValue()
    ensures DataCrc([0xFF, 0xFF, 0xFF, 0xFF, 0x80]) == 0xFFFF_FFFF - 0xEDB8_8320
    ensures DataCrc([]) == 0
  {
    hide Step32, ToNat, POLY32;
    var data: seq<Byte> := [0xFF, 0xFF, 0xFF, 0xFF, 0x80];
    assert data[..4] == [0xFF, 0xFF, 0xFF, 0xFF];
    assert Xor32(Zeros(32), Ones(32)) == Ones(32);
    EmptiesAll32();
    OneBit32();
    Polynomial32();
    Complement(POLY32);
    Powers();
  }
}
