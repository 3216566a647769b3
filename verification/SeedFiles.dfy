/** The archive and audit files with their planted rows (migration/source/seed/generate.py, tables.py). */
module SeedFiles {
  import opened Bytes
  import opened Calendar
  import opened Cohorts
  import opened Digits
  import opened Generate
  import opened Mixer
  import opened Results
  import opened Runs
  import opened SeedRows

  // ---- the sum of a counter ----

  ghost function SumOver(ks: set<Code>, c: Counter): int
    decreases ks
  {
    if ks == {} then 0 else
      var k :| k in ks;
      At(c, k) + SumOver(ks - {k}, c)
  }

  /** `sum(c.values())`. */
  ghost function Sum(c: Counter): int { SumOver(c.Keys, c) }

  lemma {:induction false} SumChoice(ks: set<Code>, c: Counter) returns (k: Code)
    requires ks != {}
    ensures k in ks && SumOver(ks, c) == At(c, k) + SumOver(ks - {k}, c)
  {
    k :| k in ks && SumOver(ks, c) == At(c, k) + SumOver(ks - {k}, c);
  }

  lemma {:induction false} SumRemove(ks: set<Code>, c: Counter, x: Code)
    requires x in ks
    ensures SumOver(ks, c) == At(c, x) + SumOver(ks - {x}, c)
    decreases ks
  {
    var k := SumChoice(ks, c);
    if k != x {
      SumRemove(ks - {k}, c, x);
      SumRemove(ks - {x}, c, k);
      assert ks - {k} - {x} == ks - {x} - {k};
    }
  }

  /** Codes that read zero do not count. */
  lemma {:induction false} SumExtend(ks: set<Code>, more: set<Code>, c: Counter)
    requires forall k :: k in more - ks ==> At(c, k) == 0
    ensures SumOver(ks + more, c) == SumOver(ks, c)
    decreases more
  {
    if x :| x in more && x !in ks {
      SumExtend(ks, more - {x}, c);
      SumRemove(ks + more, c, x);
      assert ks + more - {x} == ks + (more - {x});
    } else {
      assert ks + more == ks;
    }
  }

  /** Counters that read the same on some codes sum to the same over them. */
  lemma {:induction false} SumSame(ks: set<Code>, c: Counter, d: Counter)
    requires forall k :: k in ks ==> At(c, k) == At(d, k)
    ensures SumOver(ks, c) == SumOver(ks, d)
    decreases ks
  {
    if ks != {} {
      var x :| x in ks;
      SumRemove(ks, c, x);
      SumRemove(ks, d, x);
      SumSame(ks - {x}, c, d);
    }
  }

  lemma SameReadings(c: Counter, d: Counter)
    requires forall k :: At(c, k) == At(d, k)
    ensures Sum(c) == Sum(d)
  {
    SumExtend(c.Keys, d.Keys, c);
    SumExtend(d.Keys, c.Keys, d);
    SumSame(c.Keys + d.Keys, c, d);
    assert c.Keys + d.Keys == d.Keys + c.Keys;
  }

  lemma SumAdd(c: Counter, x: Code, v: int)
    ensures Sum(Add(c, x, v)) == Sum(c) + v
  {
    var d := Add(c, x, v);
    var ks := c.Keys + {x};
    assert d.Keys == ks;
    SumRemove(ks, d, x);
    SumRemove(ks, c, x);
    SumSame(ks - {x}, c, d);
    SumExtend(c.Keys, {x}, c);
  }

  // ---- how many rows a pass selects ----

  ghost function Selected(row: nat -> Part, lo: nat, hi: nat): nat
    decreases hi - lo
  {
    if lo >= hi then 0 else Selected(row, lo, hi - 1) + if row(hi - 1).selected then 1 else 0
  }

  lemma {:induction false} WorkedTotal(row: nat -> Part, lo: nat, hi: nat)
    ensures Sum(Worked(row, lo, hi).counts) == Selected(row, lo, hi)
    decreases hi - lo
  {
    if lo >= hi {
    } else {
      WorkedTotal(row, lo, hi - 1);
      SumAdd(Worked(row, lo, hi - 1).counts, row(hi - 1).cls, 1);
    }
  }

  /** A counter that reads like a sequential pass sums to the number of rows the pass selects. */
  lemma PassTotal(c: Counter, row: nat -> Part, lo: nat, hi: nat)
    requires forall k :: At(c, k) == PassCount(row, lo, hi, k)
    ensures Sum(c) == Selected(row, lo, hi)
  {
    SameReadings(c, Worked(row, lo, hi).counts);
    WorkedTotal(row, lo, hi);
  }

  ghost function SelectedRows(row: nat -> Part, n: nat): set<nat> { set g: nat | g < n && row(g).selected }

  lemma {:induction false} SelectedSize(row: nat -> Part, n: nat)
    ensures Selected(row, 0, n) == |SelectedRows(row, n)|
  {
    if n == 0 {
      assert SelectedRows(row, n) == {};
    } else {
      SelectedSize(row, n - 1);
      assert SelectedRows(row, n) == SelectedRows(row, n - 1) + if row(n - 1).selected then {n - 1} else {};
    }
  }

  lemma {:induction false} SelectedSplits(row: nat -> Part, lo: nat, mid: nat, hi: nat)
    requires lo <= mid <= hi
    ensures Selected(row, lo, hi) == Selected(row, lo, mid) + Selected(row, mid, hi)
    decreases hi - mid
  {
    if mid == hi {
    } else {
      SelectedSplits(row, lo, mid, hi - 1);
    }
  }

  lemma {:induction false} AllSelected(row: nat -> Part, lo: nat, hi: nat, sel: bool)
    requires lo <= hi && forall g: nat :: lo <= g < hi ==> row(g).selected == sel
    ensures Selected(row, lo, hi) == if sel then hi - lo else 0
    decreases hi - lo
  {
    if lo == hi {
    } else {
      AllSelected(row, lo, hi - 1, sel);
    }
  }

  // ---- planted archive rows ----

  const PLANTED_ROWS := 42
  const PARENTS_FROM := 20
  const PARENTS_TO := 25

  datatype Planting = Planting(tag: string, cls: Code, at: Moment, frac: nat)

  /** The failure class, retention class and last access of the planted row with ordinal `i`. */
  function PlantedRow(i: nat): Planting
    requires i < PLANTED_ROWS
  {
    if i < 5 then Planting("MIG-01", FIN7, Moment(Date(2016, 3, 1 + i), 10, 15, 30), 123_456_789_012)
    else if i < 10 then Planting("MIG-02", TAX7, Moment(Date(2015, 6, 6 + i), 8, 0, 0), 1)
    else if i < 15 then Planting("MIG-03", LGL7, Moment(Date(2014, 11, 11 + i), 17, 45, 0), 500_000_000_000)
    else if i < PARENTS_FROM then Planting("MIG-04", HRS7, Moment(Date(2013, 2, i - 14), 9, 30, 0), 0)
    else if i < PARENTS_TO then Planting("MIG-05-parent", FIN7, Moment(Date(2025, 2, i - 19), 12, 0, 0), 0)
    else if i < 30 then Planting("MIG-06", AUD7, Moment(Date(2016, 9, i - 24), 11, 11, 11), 111_111_111_111)
    else if i < 36 then Planting("MIG-07", F07R, Moment(Date(2017, 1, i - 29), 0, 0, 0), 0)
    else Planting("MIG-07", L07R, Moment(Date(2017, 2, i - 35), 0, 0, 0), 0)
  }

  const KEY_WIDTH := 10
  const SHORT_KEY_WIDTH := 2

  /** The digit of the failure class in a planted key. */
  function PlantedGroup(i: nat): nat
    requires i < PLANTED_ROWS
  {
    if i < 30 then 1 + i / 5 else 7
  }

  function PlantedKeyWidth(group: nat): nat { if group == 4 then SHORT_KEY_WIDTH else KEY_WIDTH }

  /** The stored key of a planted row; the short ones are padded to the column width. */
  function PlantedKey(i: nat): string
    requires i < PLANTED_ROWS
  {
    var group := PlantedGroup(i);
    var k := if i < 30 then i % 5 + 1 else i - 29;
    ("MIG0" + [DigitChar(group), '-']) + (Padded(k, PlantedKeyWidth(group)) + (if group == 4 then "        " else ""))
  }

  /** The key of row `g` of a file of `n` generated rows and the planted ones. */
  function DocarchFileKey(n: nat, g: nat): string
    requires g < n + PLANTED_ROWS
  {
    if g < n then DocarchKey(g) else PlantedKey(g - n)
  }

  lemma SmallCounter(k: nat, w: nat)
    requires k < 100 && w >= SHORT_KEY_WIDTH
    ensures k < Pow10(w)
  {
    Widths();
    Pow10Monotone(SHORT_KEY_WIDTH, w);
  }

  lemma NumberApart(a: nat, b: nat, w: nat, head: string, pad: string)
    requires a < 100 && b < 100 && w >= SHORT_KEY_WIDTH && a != b
    ensures head + (Padded(a, w) + pad) != head + (Padded(b, w) + pad)
  {
    SmallCounter(a, w);
    SmallCounter(b, w);
    PaddedOrder(a, b, w);
    var s, t := head + (Padded(a, w) + pad), head + (Padded(b, w) + pad);
    assert s[|head|..][..w] == Padded(a, w) && t[|head|..][..w] == Padded(b, w);
  }

  lemma PlantedKeysDistinct(i: nat, j: nat)
    requires i < j < PLANTED_ROWS
    ensures PlantedKey(i) != PlantedKey(j)
  {
    var a, b := PlantedGroup(i), PlantedGroup(j);
    if a == b {
      var m, n := if i < 30 then i % 5 + 1 else i - 29, if j < 30 then j % 5 + 1 else j - 29;
      NumberApart(m, n, PlantedKeyWidth(a), "MIG0" + [DigitChar(a), '-'], if a == 4 then "        " else "");
    } else {
      assert PlantedKey(i)[4] == DigitChar(a) && PlantedKey(j)[4] == DigitChar(b);
    }
  }

  /** No two rows of the archive file have the same key, below 10^14 generated rows. */
  lemma DocarchFileKeysDistinct(n: nat, g: nat, h: nat)
    requires n < Pow10(KEY_DIGITS) && g < h < n + PLANTED_ROWS
    ensures DocarchFileKey(n, g) != DocarchFileKey(n, h)
  {
    if h < n {
      DocarchKeyOrder(g, h);
    } else if g >= n {
      PlantedKeysDistinct(g - n, h - n);
    } else {
      assert DocarchKey(g)[0] == 'D' && PlantedKey(h - n)[0] == 'M';
    }
  }

  /** The storage charge: overwritten in the last twelve rows, drawn like any other row's before. */
  function PlantedCharge(i: nat): nat
    requires i < PLANTED_ROWS
  {
    if i < 30 then DocarchBase(PLANTED, i, "", S).storageCharge
    else if i < 35 then (i - 29) * 100_00000000
    else if i == 35 then 1100_12345678
    else if i < 41 then 433_00000000
    else 435_12345679
  }

  /** The text of last access, after `_ts` has read the planted text and `ts12` has written it again. */
  function PlantedTs(p: Planting): Option<string>
    requires ValidMoment(p.at)
  {
    var read := ParseTs(MomentText(p.at, p.frac));
    if read.None? then None else Ts12(read.value.0, read.value.1)
  }

  lemma PlantedMoment(i: nat)
    requires i < PLANTED_ROWS
    ensures ValidMoment(PlantedRow(i).at) && PlantedRow(i).frac < FRAC
    ensures PlantedRow(i).at.date.year < 2019 <==> !(PARENTS_FROM <= i < PARENTS_TO)
    ensures InClosed7y(PlantedRow(i).cls)
  {
  }

  lemma YearBeforeCutoff(t: Moment, frac: nat)
    requires ValidMoment(t) && frac < FRAC
    ensures LexLess(MomentText(t, frac), CUTOFF_TEXT) <==> t.date.year < 2019
  {
    EpochConstants();
    GmTimeOfTimeGm(t);
    BeforeCutoff(TimeGm(t), frac);
    TimeGmOrder(t, Moment(Date(2019, 1, 1), 0, 0, 0));
  }

  lemma SelectedText(cls: Code, t: Moment, frac: nat)
    requires ValidMoment(t) && frac < FRAC && InClosed7y(cls)
    ensures IsSelected(cls, PlantedTs(Planting("", cls, t, frac))) <==> t.date.year < 2019
  {
    Ts12OfParseTs(t, frac);
    YearBeforeCutoff(t, frac);
  }

  /** Every planted row satisfies the selection predicate but the parents of the five orphans. */
  lemma PlantedSelection(i: nat)
    requires i < PLANTED_ROWS
    ensures ValidMoment(PlantedRow(i).at)
    ensures IsSelected(PlantedRow(i).cls, PlantedTs(PlantedRow(i))) <==> !(PARENTS_FROM <= i < PARENTS_TO)
  {
    var p := PlantedRow(i);
    PlantedMoment(i);
    SelectedText(p.cls, p.at, p.frac);
  }

  // ---- the timestamps of planted rows ----

  lemma TwoDigits(n: nat)
    requires n < 100
    ensures Padded(n, 2) == [DigitChar(n / 10), DigitChar(n % 10)]
  {
    assert Pow10(2) == 100;
    FieldWidth(n, 2);
    assert Fixed(n, 2) == Fixed(n / 10, 1) + [DigitChar(n % 10)];
    assert Fixed(n / 10, 1) == Fixed(n / 10 / 10, 0) + [DigitChar(n / 10 % 10)];
  }

  lemma TwoPairs(hi: nat, lo: nat, w: nat)
    requires w == 2 && lo < 100
    ensures Fixed(100 * hi + lo, 2 * w) == Fixed(hi, w) + Fixed(lo, w)
  {
    assert Pow10(2) == 100;
    FixedAppend(hi, lo, w, w);
  }

  lemma PairsPadded(hi: nat, lo: nat, w: nat)
    requires hi < 100 && lo < 100 && w == 2
    ensures Padded(100 * hi + lo, 2 * w) == Padded(hi, w) + Padded(lo, w)
  {
    assert Pow10(2) == 100 && Pow10(4) == 10_000;
    TwoPairs(hi, lo, w);
    FieldWidth(100 * hi + lo, 2 * w);
    FieldWidth(hi, w);
    FieldWidth(lo, w);
  }

  lemma FourDigits(n: nat)
    requires n < 10_000
    ensures Padded(n, 4) == Padded(n / 100, 2) + Padded(n % 100, 2)
  {
    PairsPadded(n / 100, n % 100, 2);
    assert n == 100 * (n / 100) + n % 100;
  }

  predicate IsTwo(t: string, n: nat) { n < 100 && t == [DigitChar(n / 10), DigitChar(n % 10)] }

  /** A timestamp text from its fields. */
  function Fields(y: string, mo: string, d: string, h: string, mi: string, s: string, f: string): string {
    y + ("-" + (mo + ("-" + (d + ("-" + (h + ("." + (mi + ("." + (s + ("." + f)))))))))))
  }

  lemma FieldsOf(p: Planting)
    requires ValidMoment(p.at) && p.frac < FRAC
    ensures PlantedTs(p) ==
            Some(Fields(Padded(p.at.date.year, 4), Padded(p.at.date.month, 2), Padded(p.at.date.day, 2),
                        Padded(p.at.hour, 2), Padded(p.at.minute, 2), Padded(p.at.second, 2), Padded(p.frac, 12)))
  {
    Ts12OfParseTs(p.at, p.frac);
  }

  /** The fraction of last access that is planted in row `i`. */
  function PlantedFraction(i: nat): nat {
    if i < 5 then 123_456_789_012 else if i < 10 then 1 else if i < 15 then 500_000_000_000
    else if 25 <= i < 30 then 111_111_111_111 else 0
  }

  /** The pairs of digits of a text, from the century to the second. */
  datatype Pairs = Pairs(century: string, year: string, month: string, day: string, h: string, m: string, s: string)

  /** The digits planted in row `i`; the second digit of the day counts the rows of a class. */
  function PlantedPairs(i: nat): Pairs
    requires i < PLANTED_ROWS
  {
    if i < 5 then Pairs("20", "16", "03", ['0', DigitChar(i + 1)], "10", "15", "30")
    else if i < 10 then Pairs("20", "15", "06", ['1', DigitChar(i - 4)], "08", "00", "00")
    else if i < 15 then Pairs("20", "14", "11", ['2', DigitChar(i - 9)], "17", "45", "00")
    else if i < 20 then Pairs("20", "13", "02", ['0', DigitChar(i - 14)], "09", "30", "00")
    else if i < 25 then Pairs("20", "25", "02", ['0', DigitChar(i - 19)], "12", "00", "00")
    else if i < 30 then Pairs("20", "16", "09", ['0', DigitChar(i - 24)], "11", "11", "11")
    else if i < 36 then Pairs("20", "17", "01", ['0', DigitChar(i - 29)], "00", "00", "00")
    else Pairs("20", "17", "02", ['0', DigitChar(i - 35)], "00", "00", "00")
  }

  predicate Shows(x: Pairs, t: Moment) {
    && t.date.year >= 0 && IsTwo(x.century, t.date.year / 100) && IsTwo(x.year, t.date.year % 100)
    && IsTwo(x.month, t.date.month) && IsTwo(x.day, t.date.day)
    && IsTwo(x.h, t.hour) && IsTwo(x.m, t.minute) && IsTwo(x.s, t.second)
  }

  lemma EarlyPairs(i: nat)
    requires i < 10
    ensures Shows(PlantedPairs(i), PlantedRow(i).at)
  {
  }

  lemma MiddlePairs(i: nat)
    requires 10 <= i < 20
    ensures Shows(PlantedPairs(i), PlantedRow(i).at)
  {
  }

  lemma LatePairs(i: nat)
    requires 20 <= i < PLANTED_ROWS
    ensures Shows(PlantedPairs(i), PlantedRow(i).at)
  {
  }

  lemma PairsPlanted(i: nat)
    requires i < PLANTED_ROWS
    ensures Shows(PlantedPairs(i), PlantedRow(i).at) && PlantedRow(i).frac == PlantedFraction(i)
  {
    if i < 10 { EarlyPairs(i); } else if i < 20 { MiddlePairs(i); } else { LatePairs(i); }
  }

  lemma PairTexts(p: Planting, x: Pairs)
    requires ValidMoment(p.at) && p.frac < FRAC && Shows(x, p.at)
    ensures PlantedTs(p) == Some(Fields(x.century + x.year, x.month, x.day, x.h, x.m, x.s, Padded(p.frac, 12)))
  {
    FieldsOf(p);
    FourDigits(p.at.date.year);
    TwoDigits(p.at.date.year / 100);
    TwoDigits(p.at.date.year % 100);
    TwoDigits(p.at.date.month);
    TwoDigits(p.at.date.day);
    TwoDigits(p.at.hour);
    TwoDigits(p.at.minute);
    TwoDigits(p.at.second);
  }

  /** The planted text is what the record gets, after it was read and written again. */
  lemma PlantedTexts(i: nat)
    requires i < PLANTED_ROWS
    ensures ValidMoment(PlantedRow(i).at)
    ensures var x := PlantedPairs(i);
            PlantedTs(PlantedRow(i)) ==
            Some(Fields(x.century + x.year, x.month, x.day, x.h, x.m, x.s, Padded(PlantedFraction(i), 12)))
  {
    PlantedMoment(i);
    PairsPlanted(i);
    PairTexts(PlantedRow(i), PlantedPairs(i));
  }

  /** The contribution of the planted row with ordinal `i`; its totals go to the class that replaced a retired one. */
  function PlantedPart(i: nat, record: seq<byte>): Part
    requires i < PLANTED_ROWS
  {
    PlantedMoment(i);
    var p := PlantedRow(i);
    Part(record, IsSelected(p.cls, PlantedTs(p)), SystemOfRecordClass(p.cls), PlantedCharge(i))
  }

  lemma PlantedPartSelected(i: nat, record: seq<byte>)
    requires i < PLANTED_ROWS
    ensures PlantedPart(i, record).selected <==> !(PARENTS_FROM <= i < PARENTS_TO)
  {
    PlantedSelection(i);
  }

  // ---- the archive file ----

  /** Row `g` of the archive file: the generated rows, then the planted ones. */
  function DocarchPart(z: Sizes, record: nat -> seq<byte>, g: nat): Part
    requires z.Valid()
  {
    if g < z.docarchGenerated then
      var row := DocarchGenerated(z, g);
      Part(record(g), row.cohort == S, row.retentionClass, row.storageCharge)
    else if g < z.docarchGenerated + PLANTED_ROWS then PlantedPart(g - z.docarchGenerated, record(g))
    else Part([], false, FIN7, 0)
  }

  function DocarchRows(z: Sizes, record: nat -> seq<byte>): nat -> Part
    requires z.Valid()
  {
    (g: nat) => DocarchPart(z, record, g)
  }

  lemma DocarchPartSelected(z: Sizes, record: nat -> seq<byte>, g: nat)
    requires z.Valid() && g < z.docarchGenerated + PLANTED_ROWS
    ensures DocarchPart(z, record, g).selected <==>
            if g < z.docarchGenerated then z.DocarchCohort(g) == S
            else !(PARENTS_FROM <= g - z.docarchGenerated < PARENTS_TO)
  {
    if g >= z.docarchGenerated {
      PlantedPartSelected(g - z.docarchGenerated, record(g));
    } else {
      assert DocarchGenerated(z, g).cohort == z.DocarchCohort(g);
    }
  }

  /** Which rows of the archive file are selected: cohort S, and all planted rows but the parents of orphans. */
  ghost predicate DocarchChoice(z: Sizes, rows: nat -> Part)
    requires z.Valid()
  {
    var n := z.docarchGenerated;
    && (forall g: nat :: g < n ==> (rows(g).selected <==> z.DocarchCohort(g) == S))
    && (forall g: nat :: n <= g < n + PLANTED_ROWS ==>
                           (rows(g).selected <==> !(PARENTS_FROM <= g - n < PARENTS_TO)))
  }

  lemma DocarchLengths(z: Sizes, record: nat -> seq<byte>, rows: nat -> Part, lrecl: nat)
    requires z.Valid() && rows == DocarchRows(z, record)
    requires forall g: nat :: g < z.docarchGenerated + PLANTED_ROWS ==> |record(g)| == lrecl
    ensures FixedLength(rows, z.docarchGenerated + PLANTED_ROWS, lrecl)
  {
  }

  lemma DocarchChosen(z: Sizes, record: nat -> seq<byte>, rows: nat -> Part)
    requires z.Valid() && rows == DocarchRows(z, record)
    ensures DocarchChoice(z, rows)
  {
    forall g: nat | g < z.docarchGenerated + PLANTED_ROWS
      ensures rows(g).selected <==>
              if g < z.docarchGenerated then z.DocarchCohort(g) == S
              else !(PARENTS_FROM <= g - z.docarchGenerated < PARENTS_TO)
    {
      DocarchPartSelected(z, record, g);
    }
  }

  /** The archive file selects the cohort S rows and 37 of the planted ones. */
  lemma DocarchSelected(z: Sizes, rows: nat -> Part)
    requires z.Valid() && DocarchChoice(z, rows)
    ensures Selected(rows, 0, z.docarchGenerated + PLANTED_ROWS) == z.docarchS + 37
  {
    var n := z.docarchGenerated;
    CohortSizes(z);
    SelectedSize(rows, n);
    assert SelectedRows(rows, n) == CohortMembers(z, S);
    AllSelected(rows, n, n + PARENTS_FROM, true);
    AllSelected(rows, n + PARENTS_FROM, n + PARENTS_TO, false);
    AllSelected(rows, n + PARENTS_TO, n + PLANTED_ROWS, true);
    SelectedSplits(rows, 0, n, n + PARENTS_FROM);
    SelectedSplits(rows, 0, n + PARENTS_FROM, n + PARENTS_TO);
    SelectedSplits(rows, 0, n + PARENTS_TO, n + PLANTED_ROWS);
  }

  lemma PassStep(row: nat -> Part, lo: nat, hi: nat)
    requires lo <= hi
    ensures PassBytes(row, lo, hi + 1) == PassBytes(row, lo, hi) + row(hi).bytes
    ensures forall k :: PassCount(row, lo, hi + 1, k) ==
                        PassCount(row, lo, hi, k) + if row(hi).selected && row(hi).cls == k then 1 else 0
    ensures forall k :: PassCharge(row, lo, hi + 1, k) ==
                        PassCharge(row, lo, hi, k) + if row(hi).selected && row(hi).cls == k then row(hi).charge else 0
  {
  }

  lemma AddReads(c: Counter, x: Code, v: int)
    ensures forall k :: At(Add(c, x, v), k) == At(c, k) + if k == x then v else 0
  {
  }

  /** The last blob, built from the rows that follow the generated ones, and the counters after them. */
  method TrailingRows(row: nat -> Part, from: nat, count: nat, counts0: Counter, charges0: Counter)
    returns (blob: seq<byte>, counts: Counter, charges: Counter)
    requires forall k :: At(counts0, k) == PassCount(row, 0, from, k)
    requires forall k :: At(charges0, k) == PassCharge(row, 0, from, k)
    ensures blob == PassBytes(row, from, from + count)
    ensures forall k :: At(counts, k) == PassCount(row, 0, from + count, k)
    ensures forall k :: At(charges, k) == PassCharge(row, 0, from + count, k)
  {
    blob, counts, charges := [], counts0, charges0;
    for i := 0 to count
      invariant blob == PassBytes(row, from, from + i)
      invariant forall k :: At(counts, k) == PassCount(row, 0, from + i, k)
      invariant forall k :: At(charges, k) == PassCharge(row, 0, from + i, k)
    {
      var part := row(from + i);
      PassStep(row, 0, from + i);
      PassStep(row, from, from + i);
      blob := blob + part.bytes;
      assert from + (i + 1) == from + i + 1;
      if part.selected {
        AddReads(counts, part.cls, 1);
        AddReads(charges, part.cls, part.charge);
        counts := Add(counts, part.cls, 1);
        charges := Add(charges, part.cls, part.charge);
      }
    }
  }

  /** Every record has the record length of its file. */
  ghost predicate FixedLength(row: nat -> Part, n: nat, lrecl: nat) {
    forall g: nat :: g < n ==> |row(g).bytes| == lrecl
  }

  /** The file of one sequential pass over the first `n` rows. */
  ghost predicate HoldsRows(file: Result<File, ()>, row: nat -> Part, n: nat) { file == Ok(File(PassBytes(row, 0, n), n)) }

  /** The totals of one sequential pass over the first `n` rows. */
  ghost predicate CountsRows(counts: Counter, row: nat -> Part, n: nat) {
    forall k :: At(counts, k) == PassCount(row, 0, n, k)
  }

  ghost predicate ChargesRows(charges: Counter, row: nat -> Part, n: nat) {
    forall k :: At(charges, k) == PassCharge(row, 0, n, k)
  }

  /**
   * One table of `generate`: `n` rows written by the workers, then `trailing` rows written by the parent process.
   * For every chunk size and window the file is the one sequential pass over all rows, and so are the totals.
   */
  method WriteTable(row: nat -> Part, n: nat, trailing: nat, chunk: nat, window: nat, lrecl: nat)
    returns (file: Result<File, ()>, counts: Counter, charges: Counter)
    requires chunk > 0 && lrecl > 0
    requires FixedLength(row, n + trailing, lrecl)
    ensures HoldsRows(file, row, n + trailing)
    ensures CountsRows(counts, row, n + trailing) && ChargesRows(charges, row, n + trailing)
    ensures Sum(counts) == Selected(row, 0, n + trailing)
  {
    var blobs, generatedCounts, generatedCharges := ParallelPass(row, n, chunk, window, lrecl);
    var blob;
    blob, counts, charges := TrailingRows(row, n, trailing, generatedCounts, generatedCharges);
    ConcatPush(blobs, blob, lrecl);
    PassSplits(row, 0, n, n + trailing, FIN7);
    PassLength(row, n, n + trailing, lrecl);
    file := Write(blobs + [blob], lrecl, n + trailing);
    PassTotal(counts, row, 0, n + trailing);
  }

  // ---- the totals by class ----

  /** The charges drawn for the planted rows. */
  function PlantedDraws(): nat -> int { (i: nat) => DocarchBase(PLANTED, i, "", S).storageCharge }

  /** The generated rows that are selected. */
  function GeneratedRows(z: Sizes): nat -> Part
    requires z.Valid()
  {
    (g: nat) =>
      var row := DocarchGenerated(z, g);
      Part([], z.DocarchCohort(g) == S, row.retentionClass, row.storageCharge)
  }

  lemma PlantedClass(i: nat)
    requires i < PLANTED_ROWS
    ensures SystemOfRecordClass(PlantedRow(i).cls) ==
            if i < 5 then FIN7 else if i < 10 then TAX7 else if i < 15 then LGL7 else if i < 20 then HRS7
            else if i < 25 then FIN7 else if i < 30 then AUD7 else if i < 36 then FIN7 else LGL7
  {
  }

  /** The charges of the last twelve rows are fixed, the others are drawn. */
  lemma PlantedAmount(i: nat, draws: nat -> int)
    requires i < PLANTED_ROWS && draws == PlantedDraws()
    ensures PlantedCharge(i) ==
            if i < 30 then draws(i)
            else if i < 35 then (i - 29) * 100_00000000 else if i == 35 then 1100_12345678
            else if i < 41 then 433_00000000 else 435_12345679
  {
  }

  lemma PlantedPartAt(i: nat, record: seq<byte>, draws: nat -> int)
    requires i < PLANTED_ROWS && draws == PlantedDraws()
    ensures PlantedAs(PlantedPart(i, record), i, FIN7, LGL7, draws(i))
  {
    PlantedPartSelected(i, record);
    PlantedClass(i);
    PlantedAmount(i, draws);
  }

  lemma GeneratedPartAt(z: Sizes, record: nat -> seq<byte>, g: nat)
    requires z.Valid() && g < z.docarchGenerated
    ensures SameTotals(DocarchPart(z, record, g), GeneratedRows(z)(g))
  {
    DocarchPartSelected(z, record, g);
  }

  /**
   * The totals of one class: its generated rows, its planted rows of an active class, and, for the two classes
   * that replaced a retired one, six rows with the amounts of the retired class each.
   */
  ghost predicate ClassTotals(z: Sizes, cls: Counter, chg: Counter)
    requires z.Valid()
  {
    AllTotals(GeneratedRows(z), z.docarchGenerated, PlantedDraws(), FIN7, LGL7, cls, chg)
  }

  lemma PlantedPlace(z: Sizes, record: nat -> seq<byte>, rows: nat -> Part, i: nat)
    requires z.Valid() && rows == DocarchRows(z, record) && i < PLANTED_ROWS
    ensures rows(z.docarchGenerated + i) == PlantedPart(i, record(z.docarchGenerated + i))
  {
  }

  lemma PlaceAsRun(z: Sizes, record: nat -> seq<byte>, rows: nat -> Part, draws: nat -> int, i: nat)
    requires z.Valid() && rows == DocarchRows(z, record) && draws == PlantedDraws() && i < PLANTED_ROWS
    ensures PlantedRowAs(rows, z.docarchGenerated, i, FIN7, LGL7, draws)
  {
    PlantedPartAt(i, record(z.docarchGenerated + i), draws);
    PlantedPlace(z, record, rows, i);
  }

  lemma FileOfRuns(z: Sizes, record: nat -> seq<byte>, rows: nat -> Part, draws: nat -> int)
    requires z.Valid() && rows == DocarchRows(z, record) && draws == PlantedDraws()
    ensures Planted(rows, z.docarchGenerated, FIN7, LGL7, draws)
  {
    forall i: nat | i < 42
      ensures PlantedRowAs(rows, z.docarchGenerated, i, FIN7, LGL7, draws)
    {
      PlaceAsRun(z, record, rows, draws, i);
    }
  }

  lemma FileOfBase(z: Sizes, record: nat -> seq<byte>, rows: nat -> Part, base: nat -> Part)
    requires z.Valid() && rows == DocarchRows(z, record) && base == GeneratedRows(z)
    ensures SameBelow(rows, base, z.docarchGenerated)
    ensures forall g: nat :: g < z.docarchGenerated ==> SameTotals(rows(g), base(g))
  {
    forall g: nat | g < z.docarchGenerated
      ensures SameAt(rows, base, g) && SameTotals(rows(g), base(g))
    {
      GeneratedPartAt(z, record, g);
    }
  }

  lemma TotalsOfRuns(z: Sizes, rows: nat -> Part, base: nat -> Part, draws: nat -> int, cls: Counter, chg: Counter)
    requires z.Valid() && base == GeneratedRows(z) && draws == PlantedDraws()
    requires Planted(rows, z.docarchGenerated, FIN7, LGL7, draws) && SameBelow(rows, base, z.docarchGenerated)
    requires CountsRows(cls, rows, z.docarchGenerated + PLANTED_ROWS)
    requires ChargesRows(chg, rows, z.docarchGenerated + PLANTED_ROWS)
    ensures ClassTotals(z, cls, chg)
  {
    CounterTotals(rows, z.docarchGenerated, base, draws, FIN7, LGL7, cls, chg);
  }

  lemma SystemOfRecordTotals(z: Sizes, record: nat -> seq<byte>, rows: nat -> Part, cls: Counter, chg: Counter)
    requires z.Valid() && rows == DocarchRows(z, record)
    requires CountsRows(cls, rows, z.docarchGenerated + PLANTED_ROWS)
    requires ChargesRows(chg, rows, z.docarchGenerated + PLANTED_ROWS)
    ensures ClassTotals(z, cls, chg)
  {
    var base, draws := GeneratedRows(z), PlantedDraws();
    FileOfRuns(z, record, rows, draws);
    FileOfBase(z, record, rows, base);
    TotalsOfRuns(z, rows, base, draws, cls, chg);
  }

  /** The archive file: written whole, with totals by class, and a total that passes the final comparison. */
  method GenerateDocarch(z: Sizes, record: nat -> seq<byte>, chunk: nat, window: nat, lrecl: nat)
    returns (file: Result<File, ()>, cls: Counter, chg: Counter)
    requires z.Valid() && chunk > 0 && lrecl > 0
    requires forall g: nat :: g < z.docarchGenerated + PLANTED_ROWS ==> |record(g)| == lrecl
    ensures var rows, n := DocarchRows(z, record), z.docarchGenerated + PLANTED_ROWS;
            HoldsRows(file, rows, n) && CountsRows(cls, rows, n) && ChargesRows(chg, rows, n)
    ensures ClassTotals(z, cls, chg) && Sum(cls) == z.docarchS + 37
  {
    var rows := DocarchRows(z, record);
    DocarchLengths(z, record, rows, lrecl);
    DocarchChosen(z, record, rows);
    DocarchSelected(z, rows);
    file, cls, chg := WriteTable(rows, z.docarchGenerated, PLANTED_ROWS, chunk, window, lrecl);
    SystemOfRecordTotals(z, record, rows, cls, chg);
  }

  // ---- the audit file ----

  /** Row `m` of the audit file: the generated children, then the five planted orphans, all of class FIN7. */
  function FileaudPart(z: Sizes, sKeys: seq<nat>, nsKeys: seq<nat>, record: nat -> seq<byte>, m: nat): Part
    requires z.Valid() && |sKeys| > 0 && |nsKeys| > 0
  {
    if m < z.fileaudGenerated then
      var parent := DocarchGenerated(z, ParentOf(z, m, sKeys, nsKeys));
      Part(record(m), parent.cohort == S, parent.retentionClass, 0)
    else if m < z.fileaudGenerated + ORPHANS then Part(record(m), true, FIN7, 0)
    else Part([], false, FIN7, 0)
  }

  function FileaudRows(z: Sizes, sKeys: seq<nat>, nsKeys: seq<nat>, record: nat -> seq<byte>): nat -> Part
    requires z.Valid() && |sKeys| > 0 && |nsKeys| > 0
  {
    (m: nat) => FileaudPart(z, sKeys, nsKeys, record, m)
  }

  lemma FileaudPartSelected(z: Sizes, sKeys: seq<nat>, nsKeys: seq<nat>, record: nat -> seq<byte>, m: nat)
    requires z.Valid() && KeyLists(z, sKeys, nsKeys) && m < z.fileaudGenerated + ORPHANS
    ensures FileaudPart(z, sKeys, nsKeys, record, m).selected <==>
            (m < z.fileaudGenerated ==> z.DocarchCohort(ParentOf(z, m, sKeys, nsKeys)) == S)
  {
  }

  /** Which rows of the audit file are selected: the children of selected parents and the orphans. */
  ghost predicate FileaudChoice(z: Sizes, sKeys: seq<nat>, nsKeys: seq<nat>, rows: nat -> Part)
    requires z.Valid() && |sKeys| > 0 && |nsKeys| > 0
  {
    && (forall m: nat :: m < z.fileaudGenerated ==>
                           (rows(m).selected <==> z.DocarchCohort(ParentOf(z, m, sKeys, nsKeys)) == S))
    && (forall m: nat :: z.fileaudGenerated <= m < z.fileaudGenerated + ORPHANS ==> rows(m).selected)
  }

  lemma FileaudLengths(z: Sizes, sKeys: seq<nat>, nsKeys: seq<nat>, record: nat -> seq<byte>, rows: nat -> Part, lrecl: nat)
    requires z.Valid() && KeyLists(z, sKeys, nsKeys) && rows == FileaudRows(z, sKeys, nsKeys, record)
    requires forall m: nat :: m < z.fileaudGenerated + ORPHANS ==> |record(m)| == lrecl
    ensures FixedLength(rows, z.fileaudGenerated + ORPHANS, lrecl)
  {
  }

  lemma FileaudChosen(z: Sizes, sKeys: seq<nat>, nsKeys: seq<nat>, record: nat -> seq<byte>, rows: nat -> Part)
    requires z.Valid() && KeyLists(z, sKeys, nsKeys) && rows == FileaudRows(z, sKeys, nsKeys, record)
    ensures FileaudChoice(z, sKeys, nsKeys, rows)
  {
    forall m: nat | m < z.fileaudGenerated + ORPHANS
      ensures rows(m).selected <==>
              (m < z.fileaudGenerated ==> z.DocarchCohort(ParentOf(z, m, sKeys, nsKeys)) == S)
    {
      FileaudPartSelected(z, sKeys, nsKeys, record, m);
    }
  }

  /** The audit file selects the configured number of children and the five orphans. */
  lemma FileaudSelectedTotal(z: Sizes, sKeys: seq<nat>, nsKeys: seq<nat>, rows: nat -> Part)
    requires z.Valid() && KeyLists(z, sKeys, nsKeys) && FileaudChoice(z, sKeys, nsKeys, rows)
    ensures Selected(rows, 0, z.fileaudGenerated + ORPHANS) == z.fileaudSelected + 5
  {
    var n := z.fileaudGenerated;
    SelectedChildrenCount(z, sKeys, nsKeys);
    SelectedSize(rows, n);
    assert SelectedRows(rows, n) == SelectedChildren(z, sKeys, nsKeys);
    AllSelected(rows, n, n + ORPHANS, true);
    SelectedSplits(rows, 0, n, n + ORPHANS);
  }

  /** The audit file, with a total that passes the final comparison. */
  method GenerateFileaud(z: Sizes, record: nat -> seq<byte>, chunk: nat, window: nat, lrecl: nat)
    returns (file: Result<File, ()>, cls: Counter, ghost sKeys: seq<nat>, ghost nsKeys: seq<nat>)
    requires z.Valid() && chunk > 0 && lrecl > 0
    requires forall m: nat :: m < z.fileaudGenerated + ORPHANS ==> |record(m)| == lrecl
    ensures KeyLists(z, sKeys, nsKeys) && |sKeys| > 0 && |nsKeys| > 0
    ensures var rows, n := FileaudRows(z, sKeys, nsKeys, record), z.fileaudGenerated + ORPHANS;
            HoldsRows(file, rows, n) && CountsRows(cls, rows, n)
    ensures Sum(cls) == z.fileaudSelected + 5
  {
    var s, ns := CohortKeys(z);
    sKeys, nsKeys := s, ns;
    var rows := FileaudRows(z, s, ns, record);
    FileaudLengths(z, s, ns, record, rows, lrecl);
    FileaudChosen(z, s, ns, record, rows);
    FileaudSelectedTotal(z, s, ns, rows);
    var charges;
    file, cls, charges := WriteTable(rows, z.fileaudGenerated, ORPHANS, chunk, window, lrecl);
  }
}
