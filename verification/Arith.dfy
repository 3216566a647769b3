/** The few facts about Euclidean division that the solver is not left to find by itself. */
module Arith {

  lemma MulAtLeast(d: int, k: int)
    requires d > 0 && k >= 1
    ensures d * k >= d
  {
    assert d * k == d + d * (k - 1);
    assert d * (k - 1) >= 0;
  }

  /** Quotient and remainder are unique. */
  lemma DivUnique(n: int, d: int, q: int, r: int)
    requires d > 0 && n == d * q + r && 0 <= r < d
    ensures n / d == q && n % d == r
  {
    var q', r' := n / d, n % d;
    assert n == d * q' + r' && 0 <= r' < d;
    Distribute(d, q, q');
    if q > q' {
      MulAtLeast(d, q - q');
    } else if q < q' {
      Distribute(d, q', q);
      MulAtLeast(d, q' - q);
    }
  }

  /** Dividing a number written as a multiple and a rest. */
  lemma DivStep(d: int, x: int, rest: int)
    requires d > 0
    ensures (d * x + rest) / d == x + rest / d
    ensures (d * x + rest) % d == rest % d
  {
    Distribute(d, x, -(rest / d));
    DivUnique(d * x + rest, d, x + rest / d, rest % d);
  }

  /** A larger factor makes a product larger by at least one multiple of the other factor. */
  lemma MulLess(a: int, b: int, p: int)
    requires a < b && p >= 0
    ensures a * p + p <= b * p
  {
    assert (b - a - 1) * p >= 0;
  }

  lemma MulEqual(a: int, b: int, c: int)
    requires a == b
    ensures a * c == b * c && c * a == c * b
  {
  }

  lemma Distribute(d: int, a: int, b: int)
    ensures d * (a - b) == d * a - d * b
  {
  }
}
