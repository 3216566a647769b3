/** Modular inverses and affine permutations (migration/source/seed/spec.py). */
module Modular {
  import opened Arith

  // ---- greatest common divisors and modular inverses ----

  function Gcd(a: nat, b: nat): nat
    decreases b
  {
    if b == 0 then a else Gcd(b, a % b)
  }

  function Bezout(a: nat, b: nat): (int, int)
    decreases b
  {
    if b == 0 then (1, 0) else var xy := Bezout(b, a % b); (xy.1, xy.0 - a / b * xy.1)
  }

  lemma BezoutStep(a: int, b: int, q: int, r: int, x: int, y: int)
    requires a == b * q + r
    ensures a * y + b * (x - q * y) == b * x + r * y
  {
    MulEqual(a, b * q + r, y);
  }

  lemma {:induction false} BezoutIdentity(a: nat, b: nat)
    ensures a * Bezout(a, b).0 + b * Bezout(a, b).1 == Gcd(a, b)
    decreases b
  {
    if b == 0 {
    } else {
      BezoutIdentity(b, a % b);
      var xy := Bezout(b, a % b);
      BezoutStep(a, b, a / b, a % b, xy.0, xy.1);
    }
  }

  /** `pow(a, -1, n)`. */
  function ModInverse(a: nat, n: nat): (r: nat)
    requires n > 0
    ensures r < n
  {
    Bezout(a, n).0 % n
  }

  lemma InverseAlgebra(a: int, n: int, x: int, y: int, q: int, r: int)
    requires a * x + n * y == 1 && x == n * q + r
    ensures a * r == n * (-y - a * q) + 1
  {
    MulEqual(x, n * q + r, a);
  }

  /** The product of a number and its inverse is one more than a multiple of the modulus. */
  lemma InverseQuotient(a: nat, n: nat) returns (k: int)
    requires n > 0 && Gcd(a, n) == 1
    ensures a * ModInverse(a, n) == n * k + 1
  {
    BezoutIdentity(a, n);
    var x, y := Bezout(a, n).0, Bezout(a, n).1;
    InverseAlgebra(a, n, x, y, x / n, x % n);
    k := -y - a * (x / n);
  }

  // ---- affine permutations ----

  function AffineMap(mult: nat, add: nat, n: nat, g: nat): (p: nat)
    requires n > 0
    ensures p < n
  {
    (mult * g + add) % n
  }

  function AffineUnmap(mult: nat, add: nat, n: nat, p: nat): (g: nat)
    requires n > 0
    ensures g < n
  {
    (p - add) * ModInverse(mult, n) % n
  }

  lemma UnmapAlgebra(mult: int, inv: int, n: int, k: int, g: int, q: int, e: int)
    requires mult * inv == n * k + 1 && e == mult * g - n * q
    ensures e * inv == n * (k * g - q * inv) + g
  {
    MulEqual(e, mult * g - n * q, inv);
    MulEqual(mult * inv, n * k + 1, g);
  }

  lemma UnmapCore(mult: int, add: int, n: int, inv: int, k: int, g: int)
    requires n > 0 && 0 <= g < n && mult * inv == n * k + 1
    ensures ((mult * g + add) % n - add) * inv % n == g
  {
    var x := mult * g + add;
    var q, e := x / n, x % n - add;
    UnmapAlgebra(mult, inv, n, k, g, q, e);
    DivUnique(e * inv, n, k * g - q * inv, g);
  }

  lemma UnmapMap(mult: nat, add: nat, n: nat, g: nat)
    requires g < n && Gcd(mult, n) == 1
    ensures AffineUnmap(mult, add, n, AffineMap(mult, add, n, g)) == g
  {
    var k := InverseQuotient(mult, n);
    UnmapCore(mult, add, n, ModInverse(mult, n), k, g);
  }

  lemma MapAlgebra(mult: int, inv: int, n: int, k: int, e: int, q: int, g: int)
    requires mult * inv == n * k + 1 && g == e * inv - n * q
    ensures mult * g == n * (k * e - mult * q) + e
  {
    MulEqual(g, e * inv - n * q, mult);
    MulEqual(mult * inv, n * k + 1, e);
  }

  lemma MapCore(mult: int, add: int, n: int, inv: int, k: int, p: int)
    requires n > 0 && 0 <= p < n && mult * inv == n * k + 1
    ensures (mult * ((p - add) * inv % n) + add) % n == p
  {
    var e := p - add;
    var x := e * inv;
    var q, g := x / n, x % n;
    MapAlgebra(mult, inv, n, k, e, q, g);
    DivUnique(mult * g + add, n, k * e - mult * q, p);
  }

  lemma MapUnmap(mult: nat, add: nat, n: nat, p: nat)
    requires p < n && Gcd(mult, n) == 1
    ensures AffineMap(mult, add, n, AffineUnmap(mult, add, n, p)) == p
  {
    var k := InverseQuotient(mult, n);
    MapCore(mult, add, n, ModInverse(mult, n), k, p);
  }

  ghost function Preimage(mult: nat, add: nat, n: nat, ps: set<nat>): set<nat>
    requires n > 0
  {
    set g: nat | g < n && AffineMap(mult, add, n, g) in ps
  }

  /** A permutation deals exactly as many rows into a set of positions as the set has members. */
  lemma {:induction false} PreimageSize(mult: nat, add: nat, n: nat, ps: set<nat>)
    requires n > 0 && Gcd(mult, n) == 1
    requires forall p :: p in ps ==> p < n
    ensures |Preimage(mult, add, n, ps)| == |ps|
    decreases |ps|
  {
    if ps == {} {
      assert Preimage(mult, add, n, ps) == {};
    } else {
      var p :| p in ps;
      var g := AffineUnmap(mult, add, n, p);
      MapUnmap(mult, add, n, p);
      var rest := Preimage(mult, add, n, ps - {p});
      PreimageSize(mult, add, n, ps - {p});
      forall h | h in Preimage(mult, add, n, ps)
        ensures h in rest + {g}
      {
        UnmapMap(mult, add, n, h);
      }
      assert Preimage(mult, add, n, ps) == rest + {g};
    }
  }

  ghost predicate Within(i: nat, lo: nat, hi: nat) { lo <= i < hi }

  ghost function Interval(lo: nat, hi: nat): set<nat> { set i: nat | i < hi && Within(i, lo, hi) }

  lemma {:induction false} IntervalSize(lo: nat, hi: nat)
    requires lo <= hi
    ensures |Interval(lo, hi)| == hi - lo
    decreases hi - lo
  {
    if lo == hi {
      assert Interval(lo, hi) == {};
    } else {
      IntervalSize(lo, hi - 1);
      assert Interval(lo, hi) == Interval(lo, hi - 1) + {hi - 1};
    }
  }
}
