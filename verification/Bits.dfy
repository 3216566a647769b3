/** Bitwise operations of unbounded natural numbers, as the source language has them. */
module Bits {
  import Arith
  import Digits

  function Pow2(n: nat): (p: nat)
    ensures p > 0
  {
    if n == 0 then 1 else 2 * Pow2(n - 1)
  }

  lemma {:induction false} Pow2Add(a: nat, b: nat)
    ensures Pow2(a + b) == Pow2(a) * Pow2(b)
  {
    if a == 0 {
    } else {
      Pow2Add(a - 1, b);
      assert Pow2(a + b) == 2 * Pow2((a - 1) + b);
    }
  }

  /** `a ^ b`. */
  function Xor(a: nat, b: nat): nat
    decreases a + b
  {
    if a == 0 && b == 0 then 0 else 2 * Xor(a / 2, b / 2) + (a + b) % 2
  }

  /** `a | b`. */
  function Or(a: nat, b: nat): nat
    decreases a + b
  {
    if a == 0 && b == 0 then 0 else 2 * Or(a / 2, b / 2) + Digits.Max(a % 2, b % 2)
  }

  /** `x >> k`. */
  function Shr(x: nat, k: nat): nat {
    if k == 0 then x else Shr(x / 2, k - 1)
  }

  /** `x << k`. */
  function Shl(x: nat, k: nat): nat {
    if k == 0 then x else 2 * Shl(x, k - 1)
  }

  lemma {:induction false} XorZero(a: nat)
    ensures Xor(a, 0) == a
  {
    if a == 0 {
    } else {
      XorZero(a / 2);
    }
  }

  lemma {:induction false} XorSelf(a: nat)
    ensures Xor(a, a) == 0
  {
    if a == 0 {
    } else {
      XorSelf(a / 2);
    }
  }

  lemma {:induction false} XorCommutes(a: nat, b: nat)
    ensures Xor(a, b) == Xor(b, a)
    decreases a + b
  {
    if a == 0 && b == 0 {
    } else {
      XorCommutes(a / 2, b / 2);
    }
  }

  lemma {:induction false} XorAssociates(a: nat, b: nat, c: nat)
    ensures Xor(Xor(a, b), c) == Xor(a, Xor(b, c))
    decreases a + b + c
  {
    if a == 0 && b == 0 && c == 0 {
    } else {
      XorAssociates(a / 2, b / 2, c / 2);
      var l, r := Xor(Xor(a, b), c), Xor(a, Xor(b, c));
      XorHalves(a, b);
      XorHalves(b, c);
      XorHalves(Xor(a, b), c);
      XorHalves(a, Xor(b, c));
      Parity(a + b, Xor(a, b), c);
      Parity(b + c, Xor(b, c), a);
      SameNumber(l, r);
    }
  }

  lemma SameNumber(l: nat, r: nat)
    requires l / 2 == r / 2 && l % 2 == r % 2
    ensures l == r
  {
  }

  lemma Parity(x: nat, y: nat, c: nat)
    requires x % 2 == y % 2
    ensures (y + c) % 2 == (x + c) % 2
  {
  }

  lemma XorHalves(a: nat, b: nat)
    ensures Xor(a, b) / 2 == Xor(a / 2, b / 2)
    ensures Xor(a, b) % 2 == (a + b) % 2
  {
  }

  lemma {:induction false} XorBelow(a: nat, b: nat, k: nat)
    requires a < Pow2(k) && b < Pow2(k)
    ensures Xor(a, b) < Pow2(k)
  {
    if k == 0 {
    } else {
      XorBelow(a / 2, b / 2, k - 1);
    }
  }

  lemma {:induction false} ShrOfXor(a: nat, b: nat, k: nat)
    ensures Shr(Xor(a, b), k) == Xor(Shr(a, k), Shr(b, k))
  {
    if k == 0 {
    } else {
      XorHalves(a, b);
      ShrOfXor(a / 2, b / 2, k - 1);
    }
  }

  lemma {:induction false} ShrTwice(x: nat, a: nat, b: nat)
    ensures Shr(Shr(x, a), b) == Shr(x, a + b)
  {
    if a == 0 {
    } else {
      ShrTwice(x / 2, a - 1, b);
    }
  }

  lemma {:induction false} ShrBelow(x: nat, k: nat, n: nat)
    requires x < Pow2(n)
    ensures Shr(x, k) < Pow2(n)
    ensures k >= n ==> Shr(x, k) == 0
    decreases k, n
  {
    if k == 0 {
    } else {
      if n > 0 {
        ShrBelow(x / 2, k - 1, n - 1);
      } else {
        ShrBelow(x / 2, k - 1, n);
      }
    }
  }

  /** Xor with the same word twice. */
  lemma XorCancels(a: nat, b: nat)
    ensures Xor(a, Xor(a, b)) == b
  {
    XorAssociates(a, a, b);
    XorSelf(a);
    XorCommutes(0, b);
    XorZero(b);
  }

  function ShiftXor(x: nat, k: nat): nat { Xor(x, Shr(x, k)) }

  lemma HalfThenDivide(x: nat, m: nat)
    requires m > 0
    ensures x / 2 / m == x / (2 * m)
  {
    var q, r := x / (2 * m), x % (2 * m);
    assert x == 2 * m * q + r;
    assert x / 2 == m * q + r / 2 && r / 2 < m;
    Arith.DivUnique(x / 2, m, q, r / 2);
  }

  /** Shifting right divides by a power of two, and shifting left multiplies with it. */
  lemma {:induction false} ShiftsArePowers(x: nat, k: nat)
    ensures Shr(x, k) == x / Pow2(k) && Shl(x, k) == x * Pow2(k)
  {
    if k > 0 {
      ShiftsArePowers(x / 2, k - 1);
      ShiftsArePowers(x, k - 1);
      HalfThenDivide(x, Pow2(k - 1));
    }
  }

  /** Undoing a shift-xor on `n`-bit words takes two shifts once three of them clear the word. */
  lemma ShiftXorUndone(x: nat, k: nat, n: nat)
    requires x < Pow2(n) && 3 * k >= n
    ensures var y := ShiftXor(x, k);
            y < Pow2(n) && Xor(y, Xor(Shr(y, k), Shr(y, 2 * k))) == x
  {
    var y := ShiftXor(x, k);
    var x1, x2, x3 := Shr(x, k), Shr(x, 2 * k), Shr(x, 3 * k);
    ShrBelow(x, k, n);
    XorBelow(x, x1, n);
    ShrOfXor(x, x1, k);
    ShrTwice(x, k, k);
    ShrOfXor(x, x1, 2 * k);
    ShrTwice(x, k, 2 * k);
    ShrBelow(x, 3 * k, n);
    assert Shr(y, k) == Xor(x1, x2) && Shr(y, 2 * k) == Xor(x2, x3) && x3 == 0;
    XorZero(x2);
    XorAssociates(x1, x2, x2);
    XorSelf(x2);
    XorZero(x1);
    XorAssociates(x, x1, x1);
    XorSelf(x1);
    XorZero(x);
  }

  /** Conversely, the two-shift form is a right inverse too. */
  lemma ShiftXorRedone(y: nat, k: nat, n: nat)
    requires y < Pow2(n) && 3 * k >= n
    ensures var x := Xor(y, Xor(Shr(y, k), Shr(y, 2 * k)));
            x < Pow2(n) && ShiftXor(x, k) == y
  {
    var y1, y2, y3 := Shr(y, k), Shr(y, 2 * k), Shr(y, 3 * k);
    var x := Xor(y, Xor(y1, y2));
    ShrBelow(y, k, n);
    ShrBelow(y, 2 * k, n);
    ShrBelow(y, 3 * k, n);
    XorBelow(y1, y2, n);
    XorBelow(y, Xor(y1, y2), n);
    ShrOfXor(y, Xor(y1, y2), k);
    ShrOfXor(y1, y2, k);
    ShrTwice(y, k, k);
    ShrTwice(y, 2 * k, k);
    assert Shr(x, k) == Xor(y1, Xor(y2, y3));
    XorZero(y2);
    XorAssociates(y, Xor(y1, y2), Xor(y1, y2));
    XorSelf(Xor(y1, y2));
    XorZero(y);
  }

  lemma {:induction false} OrZero(a: nat)
    ensures Or(a, 0) == a
  {
    if a == 0 {
    } else {
      OrZero(a / 2);
    }
  }

  lemma {:induction false} OrOfDisjoint(i: nat, k: nat, f: nat)
    requires f < Pow2(k)
    ensures Or(Shl(i, k), f) == Shl(i, k) + f
  {
    if k == 0 {
      OrZero(i);
    } else {
      OrOfDisjoint(i, k - 1, f / 2);
    }
  }

  lemma {:induction false} ShlBelow(i: nat, k: nat, n: nat)
    requires i < Pow2(n)
    ensures Shl(i, k) + Pow2(k) <= Pow2(n + k)
  {
    if k == 0 {
    } else {
      ShlBelow(i, k - 1, n);
    }
  }

  lemma {:induction false} ShlInjective(i: nat, f: nat, j: nat, g: nat, k: nat)
    requires f < Pow2(k) && g < Pow2(k)
    ensures Shl(i, k) + f == Shl(j, k) + g <==> i == j && f == g
  {
    if k == 0 {
    } else {
      ShlInjective(i, f / 2, j, g / 2, k - 1);
    }
  }
}
