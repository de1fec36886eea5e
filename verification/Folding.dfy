/** Repeating a step and folding a step over a byte string, over any kind of register. */
module Folding {
  import opened Bytes

  function Iterate<R>(f: R -> R, x: R, k: nat): R {
    if k == 0 then x else f(Iterate(f, x, k - 1))
  }

  /** The register after `data`, one step per byte. */
  function Fold<R>(step: (R, Byte) -> R, data: seq<Byte>, register: R): R {
    if data == [] then register else step(Fold(step, data[..|data| - 1], register), data[|data| - 1])
  }

  ghost predicate Linear<R(!new)>(f: R -> R, xor: (R, R) -> R) {
    forall a, b :: f(xor(a, b)) == xor(f(a), f(b))
  }

  lemma {:induction false} IterateIsLinear<R(!new)>(f: R -> R, xor: (R, R) -> R, x: R, y: R, k: nat)
    requires Linear(f, xor)
    ensures Iterate(f, xor(x, y), k) == xor(Iterate(f, x, k), Iterate(f, y, k))
  {
    if k != 0 { IterateIsLinear(f, xor, x, y, k - 1); }
  }

  ghost predicate Injective<R(!new)>(f: R -> R) {
    forall a, b :: f(a) == f(b) ==> a == b
  }

  lemma {:induction false} IterateIsInjective<R(!new)>(f: R -> R, x: R, y: R, k: nat)
    requires Injective(f)
    requires Iterate(f, x, k) == Iterate(f, y, k)
    ensures x == y
  {
    if k != 0 { IterateIsInjective(f, x, y, k - 1); }
  }

  /** Folding over two pieces one after the other is folding over the whole. */
  lemma {:induction false} FoldContinues<R>(step: (R, Byte) -> R, a: seq<Byte>, b: seq<Byte>, register: R)
    ensures Fold(step, a + b, register) == Fold(step, b, Fold(step, a, register))
  {
    if b == [] {
      assert a + b == a;
    } else {
      FoldContinues(step, a, b[..|b| - 1], register);
      assert (a + b)[..|a + b| - 1] == a + b[..|b| - 1];
    }
  }

  /** A step that loses neither the register it started from nor the byte it took in. */
  ghost predicate Faithful<R(!new)>(step: (R, Byte) -> R) {
    && (forall x, y, b :: step(x, b) == step(y, b) ==> x == y)
    && (forall x, a, b :: step(x, a) == step(x, b) ==> a == b)
  }

  lemma {:induction false} FoldKeepsApart<R(!new)>(step: (R, Byte) -> R, data: seq<Byte>, x: R, y: R)
    requires Faithful(step)
    requires x != y
    ensures Fold(step, data, x) != Fold(step, data, y)
  {
    if data != [] { FoldKeepsApart(step, data[..|data| - 1], x, y); }
  }

  /** Two byte strings that differ at position `at` and nowhere else. */
  predicate DifferAt(s: seq<Byte>, t: seq<Byte>, at: nat) {
    && at < |s| == |t|
    && s[at] != t[at]
    && s[..at] == t[..at]
    && s[at + 1..] == t[at + 1..]
  }

  /** A faithful fold tells apart any two strings that differ in a single byte. */
  lemma FoldSeesOneByte<R(!new)>(step: (R, Byte) -> R, s: seq<Byte>, t: seq<Byte>, at: nat, register: R)
    requires Faithful(step)
    requires DifferAt(s, t, at)
    ensures Fold(step, s, register) != Fold(step, t, register)
  {
    assert s == s[..at + 1] + s[at + 1..] && t == t[..at + 1] + t[at + 1..];
    FoldContinues(step, s[..at + 1], s[at + 1..], register);
    FoldContinues(step, t[..at + 1], t[at + 1..], register);
    assert s[..at + 1][..at] == s[..at] && t[..at + 1][..at] == t[..at];
    var before := Fold(step, s[..at], register);
    assert Fold(step, s[..at + 1], register) == step(before, s[at]);
    assert Fold(step, t[..at + 1], register) == step(before, t[at]);
    FoldKeepsApart(step, s[at + 1..], step(before, s[at]), step(before, t[at]));
  }
}
