/** Totals by class over runs of rows of one class (migration/source/seed/generate.py, tables.py). */
module Runs {
  import opened Generate
  import opened SeedRows

  /** The rows `lo` to `hi` are all of one class, and all selected or none of them. */
  ghost predicate Run(rows: nat -> Part, lo: nat, hi: nat, c: Code, sel: bool) {
    lo <= hi && forall g: nat :: lo <= g < hi ==> rows(g).cls == c && rows(g).selected == sel
  }

  ghost function ChargeSum(rows: nat -> Part, lo: nat, hi: nat): int
    decreases hi - lo
  {
    if lo >= hi then 0 else ChargeSum(rows, lo, hi - 1) + rows(hi - 1).charge
  }

  lemma {:induction false} RunCount(rows: nat -> Part, lo: nat, hi: nat, c: Code, sel: bool, k: Code)
    requires Run(rows, lo, hi, c, sel)
    ensures PassCount(rows, lo, hi, k) == if sel && k == c then hi - lo else 0
    decreases hi - lo
  {
    if lo < hi {
      assert rows(hi - 1).cls == c && rows(hi - 1).selected == sel;
      RunCount(rows, lo, hi - 1, c, sel, k);
    }
  }

  lemma {:induction false} RunCharge(rows: nat -> Part, lo: nat, hi: nat, c: Code, sel: bool, k: Code)
    requires Run(rows, lo, hi, c, sel)
    ensures PassCharge(rows, lo, hi, k) == if sel && k == c then ChargeSum(rows, lo, hi) else 0
    decreases hi - lo
  {
    if lo < hi {
      assert rows(hi - 1).cls == c && rows(hi - 1).selected == sel;
      RunCharge(rows, lo, hi - 1, c, sel, k);
    }
  }

  lemma ThenRun(rows: nat -> Part, from: nat, lo: nat, hi: nat, c: Code, sel: bool, k: Code)
    requires from <= lo && Run(rows, lo, hi, c, sel)
    ensures PassCount(rows, from, hi, k) == PassCount(rows, from, lo, k) + if sel && k == c then hi - lo else 0
    ensures PassCharge(rows, from, hi, k) ==
            PassCharge(rows, from, lo, k) + if sel && k == c then ChargeSum(rows, lo, hi) else 0
  {
    RunCount(rows, lo, hi, c, sel, k);
    RunCharge(rows, lo, hi, c, sel, k);
    PassSplits(rows, from, lo, hi, k);
  }

  /** Five charges. */
  function FiveFrom(draws: nat -> int, i: nat): int {
    draws(i) + draws(i + 1) + draws(i + 2) + draws(i + 3) + draws(i + 4)
  }

  /** The class that the planted row with ordinal `i` is credited to. */
  function ClassAt(i: nat, first: Code, second: Code): Code {
    if i < 5 then FIN7 else if i < 10 then TAX7 else if i < 15 then LGL7 else if i < 20 then HRS7
    else if i < 25 then FIN7 else if i < 30 then AUD7 else if i < 36 then first else second
  }

  /**
   * The planted row with ordinal `i`: six failure classes of five rows each, of which the parents of orphans are not
   * selected, and two runs of six rows with charges of their own; `draw` is the charge that was drawn for it.
   */
  predicate PlantedAs(r: Part, i: nat, first: Code, second: Code, draw: int) {
    && (r.selected <==> !(20 <= i < 25))
    && r.cls == ClassAt(i, first, second)
    && r.charge == (if i < 30 then draw
                    else if i < 35 then (i - 29) * 100_00000000 else if i == 35 then 1100_12345678
                    else if i < 41 then 433_00000000 else 435_12345679)
  }

  predicate PlantedRowAs(rows: nat -> Part, n: nat, i: nat, first: Code, second: Code, draws: nat -> int) {
    PlantedAs(rows(n + i), i, first, second, draws(i))
  }

  ghost predicate Planted(rows: nat -> Part, n: nat, first: Code, second: Code, draws: nat -> int) {
    forall i: nat :: i < 42 ==> PlantedRowAs(rows, n, i, first, second, draws)
  }

  lemma PlantedRun(rows: nat -> Part, n: nat, first: Code, second: Code, draws: nat -> int, lo: nat, hi: nat, c: Code)
    requires Planted(rows, n, first, second, draws) && lo <= hi <= 42
    requires forall i: nat :: lo <= i < hi ==> ClassAt(i, first, second) == c
    requires hi <= 20 || 25 <= lo || (20 <= lo && hi <= 25)
    ensures Run(rows, n + lo, n + hi, c, hi <= 20 || 25 <= lo || lo == hi)
  {
    forall g: nat | n + lo <= g < n + hi
      ensures rows(g).cls == c && (rows(g).selected <==> !(20 <= g - n < 25))
    {
      var i: nat := g - n;
      assert PlantedRowAs(rows, n, i, first, second, draws);
    }
  }

  lemma FiveCharges(rows: nat -> Part, lo: nat)
    ensures ChargeSum(rows, lo, lo + 5) ==
            rows(lo).charge + rows(lo + 1).charge + rows(lo + 2).charge + rows(lo + 3).charge + rows(lo + 4).charge
  {
    assert ChargeSum(rows, lo, lo + 1) == rows(lo).charge;
    assert ChargeSum(rows, lo, lo + 3) == ChargeSum(rows, lo, lo + 1) + rows(lo + 1).charge + rows(lo + 2).charge;
    assert ChargeSum(rows, lo, lo + 5) == ChargeSum(rows, lo, lo + 3) + rows(lo + 3).charge + rows(lo + 4).charge;
  }

  lemma DrawnSum(rows: nat -> Part, n: nat, first: Code, second: Code, draws: nat -> int, lo: nat)
    requires Planted(rows, n, first, second, draws) && lo <= 25
    ensures ChargeSum(rows, n + lo, n + lo + 5) == FiveFrom(draws, lo)
  {
    FiveCharges(rows, n + lo);
    assert n + lo + 1 == n + (lo + 1) && n + lo + 2 == n + (lo + 2);
    assert n + lo + 3 == n + (lo + 3) && n + lo + 4 == n + (lo + 4);
    assert PlantedRowAs(rows, n, lo, first, second, draws) && PlantedRowAs(rows, n, lo + 1, first, second, draws);
    assert PlantedRowAs(rows, n, lo + 2, first, second, draws) && PlantedRowAs(rows, n, lo + 3, first, second, draws);
    assert PlantedRowAs(rows, n, lo + 4, first, second, draws);
  }

  lemma SixCharges(rows: nat -> Part, lo: nat)
    ensures ChargeSum(rows, lo, lo + 6) == rows(lo).charge + rows(lo + 1).charge + rows(lo + 2).charge +
                                           rows(lo + 3).charge + rows(lo + 4).charge + rows(lo + 5).charge
  {
    assert ChargeSum(rows, lo, lo + 1) == rows(lo).charge;
    assert ChargeSum(rows, lo, lo + 2) == rows(lo).charge + rows(lo + 1).charge;
    assert ChargeSum(rows, lo, lo + 4) == ChargeSum(rows, lo, lo + 2) + rows(lo + 2).charge + rows(lo + 3).charge;
    assert ChargeSum(rows, lo, lo + 6) == ChargeSum(rows, lo, lo + 4) + rows(lo + 4).charge + rows(lo + 5).charge;
  }

  /** The charges of the two runs of six. */
  lemma RetiredCharges(rows: nat -> Part, n: nat, first: Code, second: Code, draws: nat -> int)
    requires Planted(rows, n, first, second, draws)
    ensures ChargeSum(rows, n + 30, n + 36) == 2600_12345678
    ensures ChargeSum(rows, n + 36, n + 42) == 2600_12345679
  {
    SixCharges(rows, n + 30);
    SixCharges(rows, n + 36);
    assert PlantedRowAs(rows, n, 30, first, second, draws) && PlantedRowAs(rows, n, 31, first, second, draws);
    assert PlantedRowAs(rows, n, 32, first, second, draws) && PlantedRowAs(rows, n, 33, first, second, draws);
    assert PlantedRowAs(rows, n, 34, first, second, draws) && PlantedRowAs(rows, n, 35, first, second, draws);
    assert PlantedRowAs(rows, n, 36, first, second, draws) && PlantedRowAs(rows, n, 37, first, second, draws);
    assert PlantedRowAs(rows, n, 38, first, second, draws) && PlantedRowAs(rows, n, 39, first, second, draws);
    assert PlantedRowAs(rows, n, 40, first, second, draws) && PlantedRowAs(rows, n, 41, first, second, draws);
  }

  function If(hit: bool, v: int): int { if hit then v else 0 }

  /** The number of selected planted rows of an active class. */
  function ActiveCount(k: Code): int {
    If(k == FIN7, 5) + If(k == TAX7, 5) + If(k == LGL7, 5) + If(k == HRS7, 5) + If(k == AUD7, 5)
  }

  /** Their charges. */
  function ActiveCharge(draws: nat -> int, k: Code): int {
    If(k == FIN7, FiveFrom(draws, 0)) + If(k == TAX7, FiveFrom(draws, 5)) + If(k == LGL7, FiveFrom(draws, 10)) +
    If(k == HRS7, FiveFrom(draws, 15)) + If(k == AUD7, FiveFrom(draws, 25))
  }

  /** One more run of five rows after those up to `lo`. */
  lemma FiveCounted(rows: nat -> Part, n: nat, first: Code, second: Code, draws: nat -> int, lo: nat, c: Code, k: Code)
    requires Planted(rows, n, first, second, draws) && lo in {0, 5, 10, 15, 20, 25}
    requires forall i: nat :: lo <= i < lo + 5 ==> ClassAt(i, first, second) == c
    ensures PassCount(rows, n, n + (lo + 5), k) == PassCount(rows, n, n + lo, k) + If(lo != 20 && k == c, 5)
  {
    PlantedRun(rows, n, first, second, draws, lo, lo + 5, c);
    ThenRun(rows, n, n + lo, n + (lo + 5), c, lo != 20, k);
  }

  lemma FiveCharged(rows: nat -> Part, n: nat, first: Code, second: Code, draws: nat -> int, lo: nat, c: Code, k: Code)
    requires Planted(rows, n, first, second, draws) && lo in {0, 5, 10, 15, 20, 25}
    requires forall i: nat :: lo <= i < lo + 5 ==> ClassAt(i, first, second) == c
    ensures PassCharge(rows, n, n + (lo + 5), k) ==
            PassCharge(rows, n, n + lo, k) + If(lo != 20 && k == c, FiveFrom(draws, lo))
  {
    PlantedRun(rows, n, first, second, draws, lo, lo + 5, c);
    ThenRun(rows, n, n + lo, n + (lo + 5), c, lo != 20, k);
    DrawnSum(rows, n, first, second, draws, lo);
    assert n + (lo + 5) == n + lo + 5;
  }

  lemma TenCounted(rows: nat -> Part, n: nat, first: Code, second: Code, draws: nat -> int, lo: nat, c: Code, d: Code,
                   k: Code)
    requires Planted(rows, n, first, second, draws) && lo in {0, 10, 20}
    requires forall i: nat :: lo <= i < lo + 10 ==> ClassAt(i, first, second) == if i < lo + 5 then c else d
    ensures PassCount(rows, n, n + (lo + 10), k) ==
            PassCount(rows, n, n + lo, k) + If(lo != 20 && k == c, 5) + If(k == d, 5)
  {
    FiveCounted(rows, n, first, second, draws, lo, c, k);
    FiveCounted(rows, n, first, second, draws, lo + 5, d, k);
  }

  lemma TenCharged(rows: nat -> Part, n: nat, first: Code, second: Code, draws: nat -> int, lo: nat, c: Code, d: Code,
                   k: Code)
    requires Planted(rows, n, first, second, draws) && lo in {0, 10, 20}
    requires forall i: nat :: lo <= i < lo + 10 ==> ClassAt(i, first, second) == if i < lo + 5 then c else d
    ensures PassCharge(rows, n, n + (lo + 10), k) ==
            PassCharge(rows, n, n + lo, k) +
            If(lo != 20 && k == c, FiveFrom(draws, lo)) + If(k == d, FiveFrom(draws, lo + 5))
  {
    FiveCharged(rows, n, first, second, draws, lo, c, k);
    FiveCharged(rows, n, first, second, draws, lo + 5, d, k);
  }

  lemma FirstTenCounted(rows: nat -> Part, n: nat, first: Code, second: Code, draws: nat -> int, k: Code)
    requires Planted(rows, n, first, second, draws)
    ensures PassCount(rows, n, n + 10, k) == If(k == FIN7, 5) + If(k == TAX7, 5)
  {
    TenCounted(rows, n, first, second, draws, 0, FIN7, TAX7, k);
  }

  lemma TwentyCounted(rows: nat -> Part, n: nat, first: Code, second: Code, draws: nat -> int, k: Code)
    requires Planted(rows, n, first, second, draws)
    ensures PassCount(rows, n, n + 20, k) ==
            If(k == FIN7, 5) + If(k == TAX7, 5) + If(k == LGL7, 5) + If(k == HRS7, 5)
  {
    FirstTenCounted(rows, n, first, second, draws, k);
    TenCounted(rows, n, first, second, draws, 10, LGL7, HRS7, k);
  }

  lemma ActiveCounted(rows: nat -> Part, n: nat, first: Code, second: Code, draws: nat -> int, k: Code)
    requires Planted(rows, n, first, second, draws)
    ensures PassCount(rows, n, n + 30, k) == ActiveCount(k)
  {
    TwentyCounted(rows, n, first, second, draws, k);
    TenCounted(rows, n, first, second, draws, 20, FIN7, AUD7, k);
  }

  lemma FirstTenCharged(rows: nat -> Part, n: nat, first: Code, second: Code, draws: nat -> int, k: Code)
    requires Planted(rows, n, first, second, draws)
    ensures PassCharge(rows, n, n + 10, k) == If(k == FIN7, FiveFrom(draws, 0)) + If(k == TAX7, FiveFrom(draws, 5))
  {
    TenCharged(rows, n, first, second, draws, 0, FIN7, TAX7, k);
  }

  lemma TwentyCharged(rows: nat -> Part, n: nat, first: Code, second: Code, draws: nat -> int, k: Code)
    requires Planted(rows, n, first, second, draws)
    ensures PassCharge(rows, n, n + 20, k) ==
            If(k == FIN7, FiveFrom(draws, 0)) + If(k == TAX7, FiveFrom(draws, 5)) +
            If(k == LGL7, FiveFrom(draws, 10)) + If(k == HRS7, FiveFrom(draws, 15))
  {
    FirstTenCharged(rows, n, first, second, draws, k);
    TenCharged(rows, n, first, second, draws, 10, LGL7, HRS7, k);
  }

  lemma ActiveCharged(rows: nat -> Part, n: nat, first: Code, second: Code, draws: nat -> int, k: Code)
    requires Planted(rows, n, first, second, draws)
    ensures PassCharge(rows, n, n + 30, k) == ActiveCharge(draws, k)
  {
    TwentyCharged(rows, n, first, second, draws, k);
    TenCharged(rows, n, first, second, draws, 20, FIN7, AUD7, k);
  }

  /** One of the two runs of six. */
  lemma ThenSix(rows: nat -> Part, n: nat, first: Code, second: Code, draws: nat -> int, lo: nat, k: Code)
    requires Planted(rows, n, first, second, draws) && lo in {30, 36}
    ensures var c := if lo == 30 then first else second;
            && PassCount(rows, n, n + (lo + 6), k) == PassCount(rows, n, n + lo, k) + If(k == c, 6)
            && PassCharge(rows, n, n + (lo + 6), k) ==
               PassCharge(rows, n, n + lo, k) + If(k == c, if lo == 30 then 2600_12345678 else 2600_12345679)
  {
    var c := if lo == 30 then first else second;
    PlantedRun(rows, n, first, second, draws, lo, lo + 6, c);
    ThenRun(rows, n, n + lo, n + (lo + 6), c, true, k);
    RetiredCharges(rows, n, first, second, draws);
  }

  /** The planted rows of an active class, and the two runs of six with their amounts. */
  lemma PlantedTotals(rows: nat -> Part, n: nat, first: Code, second: Code, draws: nat -> int, k: Code)
    requires Planted(rows, n, first, second, draws)
    ensures PassCount(rows, n, n + 42, k) ==
            ActiveCount(k) + If(k == first, 6) + If(k == second, 6)
    ensures PassCharge(rows, n, n + 42, k) ==
            ActiveCharge(draws, k) + If(k == first, 2600_12345678) +
            If(k == second, 2600_12345679)
  {
    ActiveCounted(rows, n, first, second, draws, k);
    ActiveCharged(rows, n, first, second, draws, k);
    ThenSix(rows, n, first, second, draws, 30, k);
    ThenSix(rows, n, first, second, draws, 36, k);
  }

  // ---- generated rows ----

  /** The two rows add the same to the totals. */
  predicate SameTotals(r: Part, s: Part) { r.selected == s.selected && r.cls == s.cls && r.charge == s.charge }

  /** The number of selected rows of a class among the first `n`. */
  ghost function CountBelow(base: nat -> Part, n: nat, k: Code): nat {
    if n == 0 then 0 else CountBelow(base, n - 1, k) + if base(n - 1).selected && base(n - 1).cls == k then 1 else 0
  }

  /** The charges of those rows. */
  ghost function ChargeBelow(base: nat -> Part, n: nat, k: Code): int {
    if n == 0 then 0
    else ChargeBelow(base, n - 1, k) + if base(n - 1).selected && base(n - 1).cls == k then base(n - 1).charge else 0
  }

  ghost predicate SameAt(rows: nat -> Part, base: nat -> Part, g: nat) {
    rows(g).selected == base(g).selected && (rows(g).selected ==> SameTotals(rows(g), base(g)))
  }

  /** The selected rows below `n` are those of `base`, with the same class and charge. */
  ghost predicate SameBelow(rows: nat -> Part, base: nat -> Part, n: nat) {
    forall g: nat :: g < n ==> SameAt(rows, base, g)
  }

  lemma {:induction false} BaseCount(rows: nat -> Part, base: nat -> Part, n: nat, k: Code)
    requires SameBelow(rows, base, n)
    ensures PassCount(rows, 0, n, k) == CountBelow(base, n, k)
  {
    if n > 0 {
      assert SameAt(rows, base, n - 1);
      BaseCount(rows, base, n - 1, k);
    }
  }

  lemma {:induction false} BaseCharge(rows: nat -> Part, base: nat -> Part, n: nat, k: Code)
    requires SameBelow(rows, base, n)
    ensures PassCharge(rows, 0, n, k) == ChargeBelow(base, n, k)
  {
    if n > 0 {
      assert SameAt(rows, base, n - 1);
      BaseCharge(rows, base, n - 1, k);
    }
  }

  /**
   * The totals of class `k`: its generated rows, its active planted ones, and six rows with the amounts of each run that
   * is credited to it.
   */
  ghost predicate TotalsOf(base: nat -> Part, n: nat, draws: nat -> int, first: Code, second: Code, k: Code, count: int,
                           charge: int)
  {
    && count == CountBelow(base, n, k) + ActiveCount(k) + If(k == first, 6) + If(k == second, 6)
    && charge == ChargeBelow(base, n, k) + ActiveCharge(draws, k) + If(k == first, 2600_12345678) +
                 If(k == second, 2600_12345679)
  }

  lemma FileTotals(rows: nat -> Part, n: nat, base: nat -> Part, draws: nat -> int, first: Code, second: Code, k: Code)
    requires Planted(rows, n, first, second, draws)
    requires SameBelow(rows, base, n)
    ensures TotalsOf(base, n, draws, first, second, k, PassCount(rows, 0, n + 42, k), PassCharge(rows, 0, n + 42, k))
  {
    BaseCount(rows, base, n, k);
    BaseCharge(rows, base, n, k);
    PlantedTotals(rows, n, first, second, draws, k);
    PassSplits(rows, 0, n, n + 42, k);
  }

  /** The counters hold the totals of every class. */
  ghost predicate AllTotals(base: nat -> Part, n: nat, draws: nat -> int, first: Code, second: Code, cls: Counter,
                            chg: Counter)
  {
    forall k {:trigger TotalsOf(base, n, draws, first, second, k, At(cls, k), At(chg, k))} ::
      TotalsOf(base, n, draws, first, second, k, At(cls, k), At(chg, k))
  }

  lemma CounterTotals(rows: nat -> Part, n: nat, base: nat -> Part, draws: nat -> int, first: Code, second: Code,
                      cls: Counter, chg: Counter)
    requires Planted(rows, n, first, second, draws)
    requires SameBelow(rows, base, n)
    requires forall k :: At(cls, k) == PassCount(rows, 0, n + 42, k)
    requires forall k :: At(chg, k) == PassCharge(rows, 0, n + 42, k)
    ensures AllTotals(base, n, draws, first, second, cls, chg)
  {
    forall k
      ensures TotalsOf(base, n, draws, first, second, k, At(cls, k), At(chg, k))
    {
      FileTotals(rows, n, base, draws, first, second, k);
    }
  }
}
