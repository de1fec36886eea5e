/** Facts about whole-number division the proofs rely on. */
module Division {

  /** Quotient and remainder are unique. */
  lemma Quotient(v: int, d: int, q: int, r: int)
    requires 0 <= r < d
    requires v == q * d + r
    ensures v / d == q && v % d == r
  {
    var k := v / d;
    assert v == k * d + v % d;
    assert (q - k) * d == v % d - r;
    if q - k >= 1 {
      Grows(q - k, d);
    } else if k - q >= 1 {
      Grows(k - q, d);
    }
  }

  lemma WholePart(v: int, d: int)
    requires d > 0
    ensures v / d * d <= v < (v / d + 1) * d
  {
    assert v == v / d * d + v % d;
    assert (v / d + 1) * d == v / d * d + d;
  }

  lemma Grows(x: int, d: int)
    requires x >= 1 && d >= 1
    ensures x * d >= d
  {
    assert (x - 1) * d >= 0;
  }

  lemma Products(a: int, b: int, d: int)
    requires a <= b && d >= 0
    ensures a * d <= b * d
  {
    assert (b - a) * d >= 0;
  }

  lemma DivideMonotone(a: int, b: int, n: int)
    requires a <= b && n > 0
    ensures a / n <= b / n
  {
    var x, y := a / n, b / n;
    assert a == x * n + a % n && b == y * n + b % n;
    assert (x - y) * n == x * n - y * n;
    if x > y { Grows(x - y, n); }
  }

  /** The cell of a later number is later exactly when the number is past the cell of the first. */
  lemma LaterCell(a: int, b: int, w: int)
    requires a <= b && w > 0
    ensures w * (a / w) <= a
    ensures b >= w * (a / w) + w <==> b / w != a / w
  {
    var c, d := a / w, b / w;
    DivideMonotone(a, b, w);
    assert a == w * c + a % w && b == w * d + b % w;
    assert w * (d - c) == w * d - w * c;
    assert w * (d - c) == (d - c) * w;
    if d > c { Grows(d - c, w); }
  }

  /** Dividing from a multiple of the divisor on. */
  lemma DivideFrom(b: int, c: int, w: int)
    requires w > 0
    ensures (b - w * c) / w == b / w - c
    ensures w * c + w * ((b - w * c) / w) == w * (b / w)
  {
    var d := b / w;
    assert b == w * d + b % w;
    assert w * (d - c) == w * d - w * c && w * (d - c) == (d - c) * w;
    Quotient(b - w * c, w, d - c, b % w);
  }
}
