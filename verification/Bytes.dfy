/**
  Little-endian integers over byte sequences and byte buffers
  (include/livox/mid360/bytes.hpp).
*/
module Bytes {

  type Byte = b: int | 0 <= b < 256
  type U16 = v: int | 0 <= v < 0x1_0000
  type U32 = v: int | 0 <= v < 0x1_0000_0000
  type U64 = v: int | 0 <= v < 0x1_0000_0000_0000_0000

  /** The number of values an `n`-byte integer takes. */
  function Range(n: nat): (r: nat)
    ensures r > 0
  {
    if n == 0 then 1 else 256 * Range(n - 1)
  }

  /** The `n` low bytes of `v`, lowest first: the truncating cast and the byte order of write_le. */
  function LittleEndian(v: nat, n: nat): (s: seq<Byte>)
    ensures |s| == n
  {
    if n == 0 then [] else [v % 256] + LittleEndian(v / 256, n - 1)
  }

  /** The value of `s`, lowest byte first. */
  function Value(s: seq<Byte>): (v: nat)
  {
    if s == [] then 0 else s[0] + 256 * Value(s[1..])
  }

  /** read_le at a byte offset. */
  function ReadAt(s: seq<Byte>, offset: nat, n: nat): (v: nat)
    requires offset + n <= |s|
  {
    Value(s[offset..offset + n])
  }

  lemma {:induction false} ValueBound(s: seq<Byte>)
    ensures Value(s) < Range(|s|)
  {
    if s != [] { ValueBound(s[1..]); }
  }

  lemma {:induction false} ReadBound(s: seq<Byte>, offset: nat, n: nat)
    requires offset + n <= |s|
    ensures ReadAt(s, offset, n) < Range(n)
  {
    ValueBound(s[offset..offset + n]);
  }

  /** Reading back what was written gives the value reduced to the width of the field. */
  lemma {:induction false} ReadsWhatWasWritten(v: nat, n: nat)
    ensures v < Range(n) ==> Value(LittleEndian(v, n)) == v
  {
    if n != 0 {
      ReadsWhatWasWritten(v / 256, n - 1);
      assert LittleEndian(v, n)[1..] == LittleEndian(v / 256, n - 1);
    }
  }

  /** Every byte string is the encoding of its own value. */
  lemma {:induction false} WritesWhatWasRead(s: seq<Byte>)
    ensures LittleEndian(Value(s), |s|) == s
  {
    if s != [] {
      WritesWhatWasRead(s[1..]);
      assert Value(s) % 256 == s[0];
      assert Value(s) / 256 == Value(s[1..]);
    }
  }

  /** The values of the byte widths the formats use. */
  lemma Ranges()
    ensures Range(1) == 0x100
    ensures Range(2) == 0x1_0000
    ensures Range(4) == 0x1_0000_0000
    ensures Range(8) == 0x1_0000_0000_0000_0000
  {
    assert Range(3) == 256 * Range(2);
    assert Range(5) == 256 * Range(4);
    assert Range(6) == 256 * Range(5);
    assert Range(7) == 256 * Range(6);
  }

  /** write_le: stores the `n` low bytes of `v` at `offset` and touches nothing else. */
  method WriteAt(out: array<Byte>, offset: nat, v: nat, n: nat)
    requires offset + n <= out.Length
    modifies out
    ensures out[..] == old(out[..offset]) + LittleEndian(v, n) + old(out[offset + n..])
  {
    var rest, i := v, 0;
    while i < n
      invariant 0 <= i <= n
      invariant out[..offset] == old(out[..offset])
      invariant out[offset + i..] == old(out[offset + i..])
      invariant out[offset..offset + i] + LittleEndian(rest, n - i) == LittleEndian(v, n)
    {
      ghost var done := out[offset..offset + i];
      out[offset + i] := rest % 256;
      assert out[offset..offset + i + 1] == done + [rest % 256];
      rest, i := rest / 256, i + 1;
    }
    assert out[..] == out[..offset] + out[offset..offset + n] + out[offset + n..];
  }
}
