/** Cohort sizes (migration/source/seed/spec.py) and the key lists built from them (migration/source/seed/generate.py). */
module Cohorts {
  import opened Modular
  import opened Results

  // ---- sizes ----

  const DOCARCH_GENERATED := 1_199_958
  const DOCARCH_S := 179_963
  const DOCARCH_R := 300_000
  const DOCARCH_MULT := 1_000_003
  const DOCARCH_ADD := 424_242
  const FILEAUD_GENERATED := 4_099_995
  const FILEAUD_SELECTED := 619_995
  const FILEAUD_MULT := 7_777_777
  const FILEAUD_ADD := 13

  datatype Cohort = S | R | O

  datatype SizesError = BadScale | DocarchTooSmall | FileaudTooSmall | NotCoprime(mult: nat, n: nat)

  datatype Sizes = Sizes(docarchGenerated: nat, docarchS: nat, docarchR: nat, fileaudGenerated: nat, fileaudSelected: nat)
  {
    predicate Valid() {
      && 0 < docarchS && 0 < docarchR && docarchS + docarchR < docarchGenerated
      && 0 < fileaudSelected < fileaudGenerated
      && Gcd(DOCARCH_MULT, docarchGenerated) == 1
      && Gcd(FILEAUD_MULT, fileaudGenerated) == 1
    }

    function DocarchNs(): nat
      requires Valid()
    {
      docarchGenerated - docarchS
    }

    function DocarchP(g: nat): nat
      requires Valid()
    {
      AffineMap(DOCARCH_MULT, DOCARCH_ADD, docarchGenerated, g)
    }

    function DocarchGForP(p: nat): nat
      requires Valid()
    {
      AffineUnmap(DOCARCH_MULT, DOCARCH_ADD, docarchGenerated, p)
    }

    function DocarchCohort(g: nat): Cohort
      requires Valid()
    {
      var p := DocarchP(g);
      if p < docarchS then S else if p < docarchS + docarchR then R else O
    }

    function FileaudQ(m: nat): nat
      requires Valid()
    {
      AffineMap(FILEAUD_MULT, FILEAUD_ADD, fileaudGenerated, m)
    }
  }

  /** `round(x)`: to the nearest integer, ties to even. */
  function RoundReal(x: real): int {
    var f := x.Floor;
    var d := x - f as real;
    if d < 0.5 || (d == 0.5 && f % 2 == 0) then f else f + 1
  }

  function Scale(n: nat, scale: real): nat
    requires 0.0 < scale <= 1.0
  {
    if scale == 1.0 then n
    else
      var k := RoundReal(n as real * scale);
      if k < 1 then 1 else k
  }

  /** The constructor: scaled counts, checked in the source's order. */
  function MakeSizes(scale: real): Result<Sizes, SizesError> {
    if scale <= 0.0 || scale > 1.0 then Err(BadScale)
    else
      var dg, ds, dr := Scale(DOCARCH_GENERATED, scale), Scale(DOCARCH_S, scale), Scale(DOCARCH_R, scale);
      if ds + dr >= dg then Err(DocarchTooSmall)
      else
        var fg, fs := Scale(FILEAUD_GENERATED, scale), Scale(FILEAUD_SELECTED, scale);
        if fs >= fg then Err(FileaudTooSmall)
        else if Gcd(DOCARCH_MULT, dg) != 1 then Err(NotCoprime(DOCARCH_MULT, dg))
        else if Gcd(FILEAUD_MULT, fg) != 1 then Err(NotCoprime(FILEAUD_MULT, fg))
        else Ok(Sizes(dg, ds, dr, fg, fs))
  }

  /** `j` is a nearest integer of `x`, the even one of two. */
  ghost predicate IsNearest(x: real, j: int) {
    -0.5 <= x - j as real <= 0.5 && (x - j as real == 0.5 || x - j as real == -0.5 ==> j % 2 == 0)
  }

  lemma NearestInteger(x: real, j: int)
    ensures IsNearest(x, j) <==> j == RoundReal(x)
  {
    var f := x.Floor;
    assert f as real <= x < f as real + 1.0;
    if IsNearest(x, j) {
      assert f as real - 0.5 <= j as real <= f as real + 1.5;
      assert j == f || j == f + 1;
    }
  }

  /** A scaled count is the nearest integer to the product, but at least one. */
  lemma ScaleNearest(n: nat, scale: real, j: int)
    requires 0.0 < scale <= 1.0 && n > 0 && IsNearest(n as real * scale, j)
    ensures Scale(n, scale) == if j < 1 then 1 else j
  {
    var x := n as real * scale;
    NearestInteger(x, j);
    if scale == 1.0 {
      assert x == n as real;
      NearestInteger(x, n);
    }
  }

  /** Which sizes a scale gives, and when it is refused: too few rows for the cohorts, or a common factor. */
  lemma SizesExactly(scale: real)
    ensures 0.0 < scale <= 1.0 ==>
              var dg, ds, dr := Scale(1_199_958, scale), Scale(179_963, scale), Scale(300_000, scale);
              var fg, fs := Scale(4_099_995, scale), Scale(619_995, scale);
              && (MakeSizes(scale).Ok? <==> ds + dr < dg && fs < fg && Gcd(1_000_003, dg) == 1 && Gcd(7_777_777, fg) == 1)
              && (MakeSizes(scale).Ok? ==> MakeSizes(scale).value == Sizes(dg, ds, dr, fg, fs))
    ensures !(0.0 < scale <= 1.0) <==> MakeSizes(scale) == Err(BadScale)
  {
  }

  /** Whatever scale is accepted, the sizes it gives are valid. */
  lemma AcceptedSizesValid(scale: real)
    ensures MakeSizes(scale).Ok? ==> MakeSizes(scale).value.Valid()
  {
  }

  lemma DocarchCoprime()
    ensures Gcd(DOCARCH_MULT, DOCARCH_GENERATED) == 1
  {
    assert Gcd(1, 0) == 1;
    assert Gcd(227, 1) == 1;
    assert Gcd(228, 227) == 1;
    assert Gcd(199955, 228) == 1;
    assert Gcd(1000003, 199955) == 1;
    assert Gcd(1199958, 1000003) == 1;
    assert Gcd(1000003, 1199958) == 1;
  }

  lemma FileaudCoprime()
    ensures Gcd(FILEAUD_MULT, FILEAUD_GENERATED) == 1
  {
    assert Gcd(1, 0) == 1;
    assert Gcd(20, 1) == 1;
    assert Gcd(41, 20) == 1;
    assert Gcd(266, 41) == 1;
    assert Gcd(307, 266) == 1;
    assert Gcd(573, 307) == 1;
    assert Gcd(880, 573) == 1;
    assert Gcd(3213, 880) == 1;
    assert Gcd(10519, 3213) == 1;
    assert Gcd(55808, 10519) == 1;
    assert Gcd(122135, 55808) == 1;
    assert Gcd(300078, 122135) == 1;
    assert Gcd(422213, 300078) == 1;
    assert Gcd(3677782, 422213) == 1;
    assert Gcd(4099995, 3677782) == 1;
    assert Gcd(7777777, 4099995) == 1;
  }

  /** The full scale is accepted with the counts unchanged. */
  lemma FullScaleAccepted()
    ensures MakeSizes(1.0) == Ok(Sizes(1_199_958, 179_963, 300_000, 4_099_995, 619_995))
  {
    DocarchCoprime();
    FileaudCoprime();
  }

  /** The position of a row, and the cohort by thirds of the positions. */
  lemma PositionsExactly(z: Sizes, g: nat)
    requires z.Valid()
    ensures z.DocarchP(g) == (1_000_003 * g + 424_242) % z.docarchGenerated
    ensures z.FileaudQ(g) == (7_777_777 * g + 13) % z.fileaudGenerated
    ensures z.DocarchCohort(g) == S <==> z.DocarchP(g) < z.docarchS
    ensures z.DocarchCohort(g) == O <==> z.DocarchP(g) >= z.docarchS + z.docarchR
  {
  }

  /** The permutation of archive rows and its inverse undo each other at every accepted scale. */
  lemma DocarchPermutation(z: Sizes, i: nat)
    requires z.Valid() && i < z.docarchGenerated
    ensures z.DocarchP(z.DocarchGForP(i)) == i
    ensures z.DocarchGForP(z.DocarchP(i)) == i
  {
    MapUnmap(DOCARCH_MULT, DOCARCH_ADD, z.docarchGenerated, i);
    UnmapMap(DOCARCH_MULT, DOCARCH_ADD, z.docarchGenerated, i);
  }

  ghost function CohortMembers(z: Sizes, c: Cohort): set<nat>
    requires z.Valid()
  {
    set g: nat | g < z.docarchGenerated && z.DocarchCohort(g) == c
  }

  /** Every cohort has exactly its configured size. */
  lemma CohortSizes(z: Sizes)
    requires z.Valid()
    ensures |CohortMembers(z, S)| == z.docarchS
    ensures |CohortMembers(z, R)| == z.docarchR
    ensures |CohortMembers(z, O)| == z.docarchGenerated - z.docarchS - z.docarchR
  {
    var n, s, r := z.docarchGenerated, z.docarchS, z.docarchS + z.docarchR;
    CohortIsPreimage(z, S, 0, s);
    CohortIsPreimage(z, R, s, r);
    CohortIsPreimage(z, O, r, n);
  }

  lemma CohortIsPreimage(z: Sizes, c: Cohort, lo: nat, hi: nat)
    requires z.Valid() && lo <= hi <= z.docarchGenerated
    requires forall g: nat :: g < z.docarchGenerated ==> (z.DocarchCohort(g) == c <==> lo <= z.DocarchP(g) < hi)
    ensures |CohortMembers(z, c)| == hi - lo
  {
    PreimageSize(DOCARCH_MULT, DOCARCH_ADD, z.docarchGenerated, Interval(lo, hi));
    IntervalSize(lo, hi);
    assert CohortMembers(z, c) == Preimage(DOCARCH_MULT, DOCARCH_ADD, z.docarchGenerated, Interval(lo, hi));
  }

  // ---- key lists ----

  ghost predicate StrictlyIncreasing(xs: seq<nat>) {
    forall i, j :: 0 <= i < j < |xs| ==> xs[i] < xs[j]
  }

  ghost predicate NonDecreasing(xs: seq<nat>) {
    forall i, j :: 0 <= i < j < |xs| ==> xs[i] <= xs[j]
  }

  ghost predicate Distinct(xs: seq<nat>) {
    forall i, j :: 0 <= i < j < |xs| ==> xs[i] != xs[j]
  }

  function Insert(x: nat, xs: seq<nat>): seq<nat> {
    if xs == [] || x <= xs[0] then [x] + xs else [xs[0]] + Insert(x, xs[1..])
  }

  /** `sorted(xs)`. */
  function Sort(xs: seq<nat>): seq<nat> {
    if xs == [] then [] else Insert(xs[0], Sort(xs[1..]))
  }

  lemma {:induction false} InsertAdds(x: nat, xs: seq<nat>)
    ensures multiset(Insert(x, xs)) == multiset(xs) + multiset{x}
  {
    if xs == [] || x <= xs[0] {
    } else {
      InsertAdds(x, xs[1..]);
      assert xs == [xs[0]] + xs[1..];
    }
  }

  lemma {:induction false} InsertOrders(x: nat, xs: seq<nat>)
    requires NonDecreasing(xs)
    ensures NonDecreasing(Insert(x, xs))
    ensures forall i :: 0 <= i < |Insert(x, xs)| ==> Insert(x, xs)[i] == x || Insert(x, xs)[i] in xs
  {
    if xs == [] || x <= xs[0] {
    } else {
      InsertOrders(x, xs[1..]);
    }
  }

  lemma {:induction false} SortSorts(xs: seq<nat>)
    ensures NonDecreasing(Sort(xs))
    ensures multiset(Sort(xs)) == multiset(xs)
  {
    if xs == [] {
    } else {
      SortSorts(xs[1..]);
      InsertAdds(xs[0], Sort(xs[1..]));
      InsertOrders(xs[0], Sort(xs[1..]));
      assert xs == [xs[0]] + xs[1..];
    }
  }

  ghost function Members(xs: seq<nat>): set<nat> { set x | x in xs }

  lemma {:induction false} DistinctSize(xs: seq<nat>)
    requires Distinct(xs)
    ensures |Members(xs)| == |xs|
  {
    if xs == [] {
      assert Members(xs) == {};
    } else {
      var front, last := xs[..|xs| - 1], xs[|xs| - 1];
      DistinctSize(front);
      assert xs == front + [last];
      assert Members(xs) == Members(front) + {last};
      assert last !in front;
    }
  }

  lemma SortOfDistinct(xs: seq<nat>)
    requires Distinct(xs)
    ensures StrictlyIncreasing(Sort(xs)) && |Sort(xs)| == |xs|
    ensures forall x :: x in Sort(xs) <==> x in xs
  {
    var ys := Sort(xs);
    SortSorts(xs);
    forall x
      ensures x in ys <==> x in xs
    {
      assert x in ys <==> x in multiset(ys);
      assert x in xs <==> x in multiset(xs);
    }
    assert |ys| == |multiset(ys)| && |xs| == |multiset(xs)|;
    forall i, j | 0 <= i < j < |ys|
      ensures ys[i] < ys[j]
    {
      if ys[i] == ys[j] {
        TwiceInMultiset(ys, i, j);
        OnceInMultiset(xs, ys[i]);
      }
    }
  }

  lemma TwiceInMultiset(xs: seq<nat>, i: nat, j: nat)
    requires i < j < |xs| && xs[i] == xs[j]
    ensures multiset(xs)[xs[i]] >= 2
  {
    assert xs == xs[..j] + [xs[j]] + xs[j + 1..];
    assert xs[i] in xs[..j];
  }

  lemma {:induction false} OnceInMultiset(xs: seq<nat>, x: nat)
    requires Distinct(xs)
    ensures multiset(xs)[x] <= 1
  {
    if xs == [] {
    } else {
      var front, last := xs[..|xs| - 1], xs[|xs| - 1];
      OnceInMultiset(front, x);
      assert xs == front + [last];
      if x == last { assert x !in front; }
    }
  }

  /** What both lists must be: the row numbers of cohort S, and all others, each in ascending order. */
  ghost predicate KeyLists(z: Sizes, sKeys: seq<nat>, nsKeys: seq<nat>)
    requires z.Valid()
  {
    && StrictlyIncreasing(sKeys) && StrictlyIncreasing(nsKeys)
    && (forall g: nat :: g in sKeys <==> g < z.docarchGenerated && z.DocarchCohort(g) == S)
    && (forall g: nat :: g in nsKeys <==> g < z.docarchGenerated && z.DocarchCohort(g) != S)
    && |sKeys| == z.docarchS && |nsKeys| == z.DocarchNs()
  }

  /** The rows dealt into the first `k` positions, in the order of the positions. */
  function Dealt(z: Sizes, k: nat): (ds: seq<nat>)
    requires z.Valid() && k <= z.docarchGenerated
    ensures |ds| == k
  {
    seq(k, p requires 0 <= p < k => z.DocarchGForP(p))
  }

  lemma DealtKeys(z: Sizes)
    requires z.Valid()
    ensures var ds := Dealt(z, z.docarchS);
            Distinct(ds) && forall g: nat :: g in ds <==> g < z.docarchGenerated && z.DocarchCohort(g) == S
  {
    var ds := Dealt(z, z.docarchS);
    forall i | 0 <= i < |ds|
      ensures ds[i] < z.docarchGenerated && z.DocarchP(ds[i]) == i
    {
      DocarchPermutation(z, i);
    }
    forall g: nat | g < z.docarchGenerated && z.DocarchCohort(g) == S
      ensures g in ds
    {
      DocarchPermutation(z, g);
      assert ds[z.DocarchP(g)] == g;
    }
  }

  /** `cohort_keys`. The two counts it asserts come out for every accepted scale. */
  method CohortKeys(z: Sizes) returns (sKeys: seq<nat>, nsKeys: seq<nat>)
    requires z.Valid()
    ensures KeyLists(z, sKeys, nsKeys)
  {
    var dealt: seq<nat> := [];
    for p := 0 to z.docarchS
      invariant dealt == Dealt(z, p)
    {
      dealt := dealt + [z.DocarchGForP(p)];
    }
    DealtKeys(z);
    SortOfDistinct(dealt);
    sKeys := Sort(dealt);
    nsKeys := Others(z.docarchGenerated, sKeys);
    ListSizes(z.docarchGenerated, sKeys, nsKeys);
  }

  /** The row numbers that are not in a list, in ascending order. */
  method Others(n: nat, keys: seq<nat>) returns (others: seq<nat>)
    ensures StrictlyIncreasing(others)
    ensures forall g: nat :: g in others <==> g < n && g !in keys
  {
    var keySet := set k | k in keys;
    others := [];
    for g := 0 to n
      invariant StrictlyIncreasing(others)
      invariant forall h: nat :: h in others <==> h < g && h !in keys
    {
      assert forall i :: 0 <= i < |others| ==> others[i] in others;
      if g !in keySet {
        others := others + [g];
        assert others[|others| - 1] == g;
      }
    }
  }

  lemma ListSizes(n: nat, xs: seq<nat>, ys: seq<nat>)
    requires StrictlyIncreasing(xs) && StrictlyIncreasing(ys)
    requires forall x: nat :: x in xs ==> x < n
    requires forall y: nat :: y in ys <==> y < n && y !in xs
    ensures |xs| + |ys| == n
  {
    DistinctSize(xs);
    DistinctSize(ys);
    IntervalSize(0, n);
    assert Members(xs) + Members(ys) == Interval(0, n);
    assert Members(xs) !! Members(ys);
  }

  /** The two properties determine the lists: no other pair has them. */
  lemma {:induction false} IncreasingListUnique(xs: seq<nat>, ys: seq<nat>)
    requires StrictlyIncreasing(xs) && StrictlyIncreasing(ys)
    requires forall x :: x in xs <==> x in ys
    ensures xs == ys
    decreases |xs| + |ys|
  {
    DistinctSize(xs);
    DistinctSize(ys);
    assert Members(xs) == Members(ys);
    if xs == [] {
    } else {
      var a, b := xs[|xs| - 1], ys[|ys| - 1];
      assert a in ys && b in xs;
      assert a == b;
      var xs', ys' := xs[..|xs| - 1], ys[..|ys| - 1];
      forall x
        ensures x in xs' <==> x in ys'
      {
        assert x in xs <==> x in xs' || x == a;
        assert x in ys <==> x in ys' || x == b;
      }
      IncreasingListUnique(xs', ys');
    }
  }
}
