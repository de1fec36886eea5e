/** Machine words as their bits, lowest bit first, and the exclusive-or the CRCs are built from. */
module Bits {
  import opened Bytes

  type Octet = s: seq<bool> | |s| == 8 witness seq(8, _ => false)
  type Word16 = s: seq<bool> | |s| == 16 witness seq(16, _ => false)
  type Word32 = s: seq<bool> | |s| == 32 witness seq(32, _ => false)

  function Zeros(n: nat): (z: seq<bool>)
    ensures |z| == n && forall i :: 0 <= i < n ==> !z[i]
  {
    seq(n, _ => false)
  }

  function Ones(n: nat): (z: seq<bool>)
    ensures |z| == n && forall i :: 0 <= i < n ==> z[i]
  {
    seq(n, _ => true)
  }

  function Xor(a: seq<bool>, b: seq<bool>): (c: seq<bool>)
    requires |a| == |b|
    ensures |c| == |a| && forall i :: 0 <= i < |a| ==> c[i] == (a[i] != b[i])
  {
    seq(|a|, i requires 0 <= i < |a| => a[i] != b[i])
  }

  /** The `n` low bits of `v`. */
  function OfNat(v: nat, n: nat): (s: seq<bool>)
    ensures |s| == n
  {
    if n == 0 then [] else [v % 2 == 1] + OfNat(v / 2, n - 1)
  }

  /** The number whose bits are `s`. */
  function ToNat(s: seq<bool>): (v: nat) {
    if s == [] then 0 else (if s[0] then 1 else 0) + 2 * ToNat(s[1..])
  }

  function Power2(n: nat): (p: nat)
    ensures p > 0
  {
    if n == 0 then 1 else 2 * Power2(n - 1)
  }

  lemma Powers()
    ensures Power2(16) == 0x1_0000
    ensures Power2(32) == 0x1_0000_0000
  {
    assert Power2(4) == 16;
    assert Power2(8) == 16 * Power2(4) by { assert Power2(6) == 4 * Power2(4); }
    assert Power2(12) == 16 * Power2(8) by { assert Power2(10) == 4 * Power2(8); }
    assert Power2(16) == 16 * Power2(12) by { assert Power2(14) == 4 * Power2(12); }
    assert Power2(20) == 16 * Power2(16) by { assert Power2(18) == 4 * Power2(16); }
    assert Power2(24) == 16 * Power2(20) by { assert Power2(22) == 4 * Power2(20); }
    assert Power2(28) == 16 * Power2(24) by { assert Power2(26) == 4 * Power2(24); }
    assert Power2(32) == 16 * Power2(28) by { assert Power2(30) == 4 * Power2(28); }
  }

  lemma {:induction false} ToNatBound(s: seq<bool>)
    ensures ToNat(s) < Power2(|s|)
  {
    if s != [] { ToNatBound(s[1..]); }
  }

  lemma OctetBound(s: Octet)
    ensures ToNat(s) < 256
  {
    ToNatBound(s);
    assert Power2(2) == 4 && Power2(4) == 16 && Power2(6) == 64;
  }

  lemma {:induction false} BitsOfNumber(s: seq<bool>)
    ensures OfNat(ToNat(s), |s|) == s
  {
    if s != [] {
      BitsOfNumber(s[1..]);
      var v := ToNat(s);
      assert v % 2 == (if s[0] then 1 else 0) && v / 2 == ToNat(s[1..]);
    }
  }

  lemma {:induction false} NumberOfBits(v: nat, n: nat)
    requires v < Power2(n)
    ensures ToNat(OfNat(v, n)) == v
  {
    if n != 0 {
      NumberOfBits(v / 2, n - 1);
      assert OfNat(v, n)[1..] == OfNat(v / 2, n - 1);
    }
  }

  lemma NumberInjective(a: seq<bool>, b: seq<bool>)
    requires |a| == |b|
    requires ToNat(a) == ToNat(b)
    ensures a == b
  {
    BitsOfNumber(a);
    BitsOfNumber(b);
  }

  function OfByte(b: Byte): Octet {
    OfNat(b, 8)
  }

  lemma ByteInjective(a: Byte, b: Byte)
    requires OfByte(a) == OfByte(b)
    ensures a == b
  {
    assert Power2(2) == 4 && Power2(4) == 16 && Power2(6) == 64 && Power2(8) == 256;
    NumberOfBits(a, 8);
    NumberOfBits(b, 8);
  }

  lemma XorInjective(a: seq<bool>, b: seq<bool>, c: seq<bool>)
    requires |a| == |b| == |c|
    requires Xor(a, c) == Xor(b, c)
    ensures a == b
  {
    forall i | 0 <= i < |a| ensures a[i] == b[i] {
      assert Xor(a, c)[i] == Xor(b, c)[i];
    }
  }

  lemma XorTwice(a: seq<bool>, c: seq<bool>)
    requires |a| == |c|
    ensures Xor(Xor(a, c), c) == a
  {
  }
}
