/**
 * The proleptic Gregorian calendar (section 3.2.1 of ISO 8601:2004) and the TIMESTAMP(12) text built on it
 * (migration/source/seed/spec.py, migration/source/seed/tables.py).
 */
module Calendar {
  import opened Arith
  import opened Digits
  import opened Results
  import opened Texts

  datatype Date = Date(year: nat, month: nat, day: nat)

  const MIN_YEAR := 1
  const MAX_YEAR := 9999

  predicate IsLeap(y: nat) { y % 4 == 0 && (y % 100 != 0 || y % 400 == 0) }

  function DaysInMonth(y: nat, m: nat): (n: nat)
    ensures 28 <= n <= 31
  {
    if m == 2 then (if IsLeap(y) then 29 else 28)
    else if m == 4 || m == 6 || m == 9 || m == 11 then 30
    else 31
  }

  predicate ValidDate(d: Date) {
    MIN_YEAR <= d.year <= MAX_YEAR && 1 <= d.month <= 12 && 1 <= d.day <= DaysInMonth(d.year, d.month)
  }

  /** Days before January 1 of year `y`. */
  function DaysBeforeYear(y: nat): nat
    requires y >= 1
  {
    (y - 1) * 365 + (y - 1) / 4 - (y - 1) / 100 + (y - 1) / 400
  }

  function DaysInYear(y: nat): nat { if IsLeap(y) then 366 else 365 }

  /** Days before the first of month `m` within its year. */
  function DaysBeforeMonth(y: nat, m: nat): nat
    requires 1 <= m <= 13
  {
    if m == 1 then 0 else DaysBeforeMonth(y, m - 1) + DaysInMonth(y, m - 1)
  }

  /** Day number with 0001-01-01 as day 1. */
  function Ordinal(d: Date): nat
    requires d.year >= 1 && 1 <= d.month <= 12
  {
    DaysBeforeYear(d.year) + DaysBeforeMonth(d.year, d.month) + d.day
  }

  const MAX_ORDINAL := DaysBeforeYear(MAX_YEAR + 1)

  lemma YearLength(y: nat)
    requires y >= 1
    ensures DaysBeforeYear(y + 1) == DaysBeforeYear(y) + DaysInYear(y)
  {
    Centuries(y);
    QuotientStep(y, 4);
    QuotientStep(y, 100);
    QuotientStep(y, 400);
  }

  lemma Centuries(y: nat)
    ensures y % 100 == 0 ==> y % 4 == 0
    ensures y % 400 == 0 ==> y % 100 == 0
  {
    if y % 100 == 0 { DivUnique(y, 4, 25 * (y / 100), 0); }
    if y % 400 == 0 { DivUnique(y, 100, 4 * (y / 400), 0); }
  }

  /** A quotient grows by one exactly at the multiples of the divisor. */
  lemma QuotientStep(y: nat, k: nat)
    requires y >= 1 && k > 1
    ensures y / k == (y - 1) / k + if y % k == 0 then 1 else 0
  {
    var q, r := (y - 1) / k, (y - 1) % k;
    assert y == k * q + (r + 1);
    if r + 1 < k {
      DivUnique(y, k, q, r + 1);
    } else {
      assert k * (q + 1) == k * q + k;
      DivUnique(y, k, q + 1, 0);
    }
  }

  lemma {:induction false} YearsMonotone(a: nat, b: nat)
    requires 1 <= a <= b
    ensures DaysBeforeYear(a) + (b - a) * 365 <= DaysBeforeYear(b)
    decreases b - a
  {
    if a == b {
    } else {
      YearsMonotone(a, b - 1);
      YearLength(b - 1);
    }
  }

  lemma {:induction false} MonthsMonotone(y: nat, a: nat, b: nat)
    requires 1 <= a < b <= 13
    ensures DaysBeforeMonth(y, a) + DaysInMonth(y, a) <= DaysBeforeMonth(y, b)
    decreases b
  {
    if a == b - 1 {
    } else {
      MonthsMonotone(y, a, b - 1);
    }
  }

  lemma MonthsFillYear(y: nat)
    ensures DaysBeforeMonth(y, 13) == DaysInYear(y)
  {
    assert DaysBeforeMonth(y, 2) == DaysInMonth(y, 1);
    assert DaysBeforeMonth(y, 3) == DaysInMonth(y, 1) + DaysInMonth(y, 2);
    assert DaysBeforeMonth(y, 5) == DaysBeforeMonth(y, 3) + 61;
    assert DaysBeforeMonth(y, 7) == DaysBeforeMonth(y, 5) + 61;
    assert DaysBeforeMonth(y, 9) == DaysBeforeMonth(y, 7) + 62;
    assert DaysBeforeMonth(y, 11) == DaysBeforeMonth(y, 9) + 61;
    assert DaysBeforeMonth(y, 13) == DaysBeforeMonth(y, 11) + 61;
  }

  function YearOf(n: nat, y: nat): (r: nat)
    requires 1 <= y <= MAX_YEAR && DaysBeforeYear(y) < n <= MAX_ORDINAL
    ensures y <= r <= MAX_YEAR && DaysBeforeYear(r) < n <= DaysBeforeYear(r + 1)
    decreases MAX_YEAR - y
  {
    if n <= DaysBeforeYear(y + 1) then y else YearOf(n, y + 1)
  }

  function MonthOf(k: nat, y: nat, m: nat): (r: nat)
    requires 1 <= m <= 12 && DaysBeforeMonth(y, m) < k <= DaysBeforeMonth(y, 13)
    ensures m <= r <= 12 && DaysBeforeMonth(y, r) < k <= DaysBeforeMonth(y, r) + DaysInMonth(y, r)
    decreases 12 - m
  {
    if k <= DaysBeforeMonth(y, m + 1) then m else MonthOf(k, y, m + 1)
  }

  /** The date with a given day number. */
  function FromOrdinal(n: nat): (d: Date)
    requires 1 <= n <= MAX_ORDINAL
    ensures ValidDate(d) && Ordinal(d) == n
  {
    var y := YearOf(n, 1);
    YearLength(y);
    MonthsFillYear(y);
    var k := n - DaysBeforeYear(y);
    var m := MonthOf(k, y, 1);
    Date(y, m, k - DaysBeforeMonth(y, m))
  }

  predicate DateLess(a: Date, b: Date) {
    a.year < b.year || (a.year == b.year && (a.month < b.month || (a.month == b.month && a.day < b.day)))
  }

  lemma EarlierDate(a: Date, b: Date)
    requires ValidDate(a) && ValidDate(b) && DateLess(a, b)
    ensures Ordinal(a) < Ordinal(b)
  {
    if a.year < b.year {
      YearsMonotone(a.year + 1, b.year);
      YearLength(a.year);
      MonthsFillYear(a.year);
      MonthsMonotone(a.year, a.month, 13);
    } else if a.month < b.month {
      MonthsMonotone(a.year, a.month, b.month);
    }
  }

  /** Day numbers order the calendar, so a day number belongs to one date only. */
  lemma OrdinalOrder(a: Date, b: Date)
    requires ValidDate(a) && ValidDate(b)
    ensures Ordinal(a) < Ordinal(b) <==> DateLess(a, b)
    ensures Ordinal(a) == Ordinal(b) <==> a == b
  {
    if DateLess(a, b) {
      EarlierDate(a, b);
    } else if DateLess(b, a) {
      EarlierDate(b, a);
    }
  }

  lemma OrdinalRange(d: Date)
    requires ValidDate(d)
    ensures 1 <= Ordinal(d) <= MAX_ORDINAL
  {
    YearsMonotone(1, d.year);
    YearsMonotone(d.year + 1, MAX_YEAR + 1);
    YearLength(d.year);
    MonthsFillYear(d.year);
    MonthsMonotone(d.year, d.month, 13);
  }

  /** The calendar round trip: date to day number and back. */
  lemma FromOrdinalOfOrdinal(d: Date)
    requires ValidDate(d)
    ensures 1 <= Ordinal(d) <= MAX_ORDINAL
    ensures FromOrdinal(Ordinal(d)) == d
  {
    OrdinalRange(d);
    OrdinalOrder(FromOrdinal(Ordinal(d)), d);
  }

  // ---- seconds since the epoch ----

  const EPOCH_ORDINAL := 719163
  const DAY_SECS := 86400

  /** Second counts whose UTC date lies in the years 1 to 9999. */
  predicate InRange(secs: int) { 1 <= secs / DAY_SECS + EPOCH_ORDINAL <= MAX_ORDINAL }

  datatype Moment = Moment(date: Date, hour: nat, minute: nat, second: nat)

  predicate ValidMoment(t: Moment) {
    ValidDate(t.date) && t.hour < 24 && t.minute < 60 && t.second < 60
  }

  /** `_gmtime`: outside the years 1 to 9999 the date arithmetic overflows. */
  function GmTime(secs: int): Option<Moment> {
    if !InRange(secs) then None
    else
      var rem: nat := secs % DAY_SECS;
      Some(Moment(FromOrdinal(secs / DAY_SECS + EPOCH_ORDINAL), rem / 3600, rem % 3600 / 60, rem % 60))
  }

  /** `calendar.timegm`: the day of the month is added without being checked. */
  function TimeGm(t: Moment): int
    requires t.date.year >= 1 && 1 <= t.date.month <= 12
  {
    SecondsAt(Ordinal(t.date), t.hour, t.minute, t.second)
  }

  function SecondsAt(day: nat, h: nat, m: nat, s: nat): int {
    ((day - EPOCH_ORDINAL) * 24 + h) * 3600 + m * 60 + s
  }

  lemma ClockDigits(rem: nat)
    requires rem < DAY_SECS
    ensures rem == rem / 3600 * 3600 + rem % 3600 / 60 * 60 + rem % 60
    ensures rem / 3600 < 24 && rem % 3600 / 60 < 60 && rem % 60 < 60
  {
    var q := rem % 3600;
    assert q % 60 == rem % 60 by { assert rem == 60 * (60 * (rem / 3600) + q / 60) + q % 60; }
  }

  lemma ClockOf(h: nat, m: nat, s: nat)
    requires h < 24 && m < 60 && s < 60
    ensures var rem := h * 3600 + m * 60 + s;
            rem / 3600 == h && rem % 3600 / 60 == m && rem % 60 == s
  {
    var rem := h * 3600 + m * 60 + s;
    DivUnique(rem, 3600, h, m * 60 + s);
    DivUnique(m * 60 + s, 60, m, s);
    DivUnique(rem, 60, h * 60 + m, s);
  }

  lemma SplitSeconds(days: int, h: nat, m: nat, s: nat)
    requires h < 24 && m < 60 && s < 60
    ensures var n := (days * 24 + h) * 3600 + m * 60 + s;
            var rem := n % DAY_SECS;
            n / DAY_SECS == days && rem / 3600 == h && rem % 3600 / 60 == m && rem % 60 == s
  {
    var rem := h * 3600 + m * 60 + s;
    DivUnique((days * 24 + h) * 3600 + m * 60 + s, DAY_SECS, days, rem);
    ClockOf(h, m, s);
  }

  /** Seconds to civil time and back. */
  lemma TimeGmOfGmTime(secs: int)
    requires InRange(secs)
    ensures ValidMoment(GmTime(secs).value)
    ensures TimeGm(GmTime(secs).value) == secs
  {
    ClockDigits(secs % DAY_SECS);
  }

  lemma AtDay(day: nat, h: nat, m: nat, s: nat)
    requires 1 <= day <= MAX_ORDINAL && h < 24 && m < 60 && s < 60
    ensures GmTime(SecondsAt(day, h, m, s)) == Some(Moment(FromOrdinal(day), h, m, s))
  {
    var n := SecondsAt(day, h, m, s);
    SplitSeconds(day - EPOCH_ORDINAL, h, m, s);
    assert n / DAY_SECS + EPOCH_ORDINAL == day && InRange(n);
    var rem: nat := n % DAY_SECS;
    assert rem / 3600 == h && rem % 3600 / 60 == m && rem % 60 == s;
  }

  /** Civil time to seconds and back. */
  lemma GmTimeOfTimeGm(t: Moment)
    requires ValidMoment(t)
    ensures GmTime(TimeGm(t)) == Some(t)
  {
    var day := Ordinal(t.date);
    FromOrdinalOfOrdinal(t.date);
    AtDay(day, t.hour, t.minute, t.second);
  }

  predicate MomentLess(a: Moment, b: Moment) {
    DateLess(a.date, b.date) || (a.date == b.date &&
      (a.hour < b.hour || (a.hour == b.hour &&
        (a.minute < b.minute || (a.minute == b.minute && a.second < b.second)))))
  }

  lemma TimeGmOrder(a: Moment, b: Moment)
    requires ValidMoment(a) && ValidMoment(b)
    ensures TimeGm(a) < TimeGm(b) <==> MomentLess(a, b)
    ensures TimeGm(a) == TimeGm(b) <==> a == b
  {
    OrdinalOrder(a.date, b.date);
  }

  // ---- TIMESTAMP(12) text ----

  const FRAC := 1_000_000_000_000

  function MomentText(t: Moment, frac: nat): string {
    Padded(t.date.year, 4) + ("-" + (Padded(t.date.month, 2) + ("-" + (Padded(t.date.day, 2) + ("-" +
      (Padded(t.hour, 2) + ("." + (Padded(t.minute, 2) + ("." + (Padded(t.second, 2) + ("." + Padded(frac, 12))))))))))))
  }

  /** `ts12`. */
  function Ts12(secs: int, frac: nat): Option<string> {
    var t := GmTime(secs);
    if t.None? then None else Some(MomentText(t.value, frac))
  }

  lemma FieldWidth(n: nat, w: nat)
    requires w >= 1 && n < Pow10(w)
    ensures Padded(n, w) == Fixed(n, w)
  {
    NumDigitsBound(n, w);
  }

  lemma PaddedOrder(m: nat, n: nat, w: nat)
    requires w >= 1 && m < Pow10(w) && n < Pow10(w)
    ensures |Padded(m, w)| == |Padded(n, w)| == w
    ensures LexLess(Padded(m, w), Padded(n, w)) <==> m < n
    ensures Padded(m, w) == Padded(n, w) <==> m == n
  {
    FieldWidth(m, w);
    FieldWidth(n, w);
    FixedOrder(m, n, w);
  }

  lemma FieldOrder(m: nat, n: nat, w: nat, sep: string, s: string, t: string)
    requires w >= 1 && m < Pow10(w) && n < Pow10(w)
    ensures LexLess(Padded(m, w) + (sep + s), Padded(n, w) + (sep + t)) <==> m < n || (m == n && LexLess(s, t))
  {
    FieldWidth(m, w);
    FieldWidth(n, w);
    FixedOrder(m, n, w);
    LexAppend(Fixed(m, w), sep + s, Fixed(n, w), sep + t);
    LexAppend(sep, s, sep, t);
    Irreflexive(sep);
  }

  lemma Widths()
    ensures Pow10(2) == 100 && Pow10(4) == 10_000 && Pow10(12) == FRAC
  {
    assert Pow10(4) == 10 * (10 * Pow10(2));
    assert Pow10(8) == 10 * (10 * (10 * (10 * Pow10(4))));
    assert Pow10(12) == 10 * (10 * (10 * (10 * Pow10(8))));
  }

  function ClockText(t: Moment, frac: nat): string {
    Padded(t.hour, 2) + ("." + (Padded(t.minute, 2) + ("." + (Padded(t.second, 2) + ("." + Padded(frac, 12))))))
  }

  predicate ClockLess(a: Moment, fa: nat, b: Moment, fb: nat) {
    a.hour < b.hour || (a.hour == b.hour && (a.minute < b.minute || (a.minute == b.minute &&
      (a.second < b.second || (a.second == b.second && fa < fb)))))
  }

  lemma ClockTextOrder(a: Moment, fa: nat, b: Moment, fb: nat)
    requires ValidMoment(a) && ValidMoment(b) && fa < FRAC && fb < FRAC
    ensures LexLess(ClockText(a, fa), ClockText(b, fb)) <==> ClockLess(a, fa, b, fb)
  {
    Widths();
    var (sa, sb) := (Padded(fa, 12), Padded(fb, 12));
    FieldWidth(fa, 12);
    FieldWidth(fb, 12);
    FixedOrder(fa, fb, 12);
    FieldOrder(a.second, b.second, 2, ".", sa, sb);
    sa, sb := Padded(a.second, 2) + ("." + sa), Padded(b.second, 2) + ("." + sb);
    FieldOrder(a.minute, b.minute, 2, ".", sa, sb);
    sa, sb := Padded(a.minute, 2) + ("." + sa), Padded(b.minute, 2) + ("." + sb);
    FieldOrder(a.hour, b.hour, 2, ".", sa, sb);
  }

  lemma MomentTextOrder(a: Moment, fa: nat, b: Moment, fb: nat)
    requires ValidMoment(a) && ValidMoment(b) && fa < FRAC && fb < FRAC
    ensures LexLess(MomentText(a, fa), MomentText(b, fb)) <==> MomentLess(a, b) || (a == b && fa < fb)
  {
    Widths();
    var (sa, sb) := (ClockText(a, fa), ClockText(b, fb));
    ClockTextOrder(a, fa, b, fb);
    FieldOrder(a.date.day, b.date.day, 2, "-", sa, sb);
    sa, sb := Padded(a.date.day, 2) + ("-" + sa), Padded(b.date.day, 2) + ("-" + sb);
    FieldOrder(a.date.month, b.date.month, 2, "-", sa, sb);
    sa, sb := Padded(a.date.month, 2) + ("-" + sa), Padded(b.date.month, 2) + ("-" + sb);
    FieldOrder(a.date.year, b.date.year, 4, "-", sa, sb);
  }

  /** Text order of TIMESTAMP(12) values is their order in time. */
  lemma Ts12Order(s: int, f: nat, s': int, f': nat)
    requires InRange(s) && InRange(s') && f < FRAC && f' < FRAC
    ensures LexLess(Ts12(s, f).value, Ts12(s', f').value) <==> s < s' || (s == s' && f < f')
  {
    TimeGmOfGmTime(s);
    TimeGmOfGmTime(s');
    var a, b := GmTime(s).value, GmTime(s').value;
    TimeGmOrder(a, b);
    MomentTextOrder(a, f, b, f');
  }

  // ---- reading TIMESTAMP(12) text back ----

  /** `_ts`: two splits, seven numbers, `calendar.timegm`. */
  function ParseTs(text: string): Option<(int, nat)> {
    var ds := SplitOn(text, '-');
    if |ds| != 4 then None else FromParts(ds[..3], SplitOn(ds[3], '.'))
  }

  function FromParts(ds: seq<string>, cs: seq<string>): Option<(int, nat)>
    requires |ds| == 3
  {
    if |cs| != 4 || !(forall k :: 0 <= k < 3 ==> PlainNumber(ds[k]))
       || !(forall k :: 0 <= k < 4 ==> PlainNumber(cs[k])) then None
    else
      var date := Date(Value(ds[0]), Value(ds[1]), Value(ds[2]));
      if !(MIN_YEAR <= date.year <= MAX_YEAR && 1 <= date.month <= 12) then None
      else Some((TimeGm(Moment(date, Value(cs[0]), Value(cs[1]), Value(cs[2]))), Value(cs[3])))
  }

  lemma NumberField(n: nat, w: nat)
    ensures var s := Padded(n, w);
            PlainNumber(s) && Value(s) == n && '-' !in s && '.' !in s
  {
    ValueOfPadded(n, w);
  }

  lemma SplitThree(a: string, b: string, c: string, d: string, sep: char)
    requires sep !in a && sep !in b && sep !in c && sep !in d
    ensures SplitOn(a + ([sep] + (b + ([sep] + (c + ([sep] + d))))), sep) == [a, b, c, d]
  {
    SplitFirst(a, sep, b + ([sep] + (c + ([sep] + d))));
    SplitFirst(b, sep, c + ([sep] + d));
    SplitFirst(c, sep, d);
    SplitWhole(d, sep);
  }

  lemma NoDashInClock(t: Moment, frac: nat)
    ensures '-' !in ClockText(t, frac)
  {
    NumberField(t.hour, 2);
    NumberField(t.minute, 2);
    NumberField(t.second, 2);
    NumberField(frac, 12);
  }

  lemma SplitTs(t: Moment, frac: nat)
    ensures SplitOn(MomentText(t, frac), '-') ==
            [Padded(t.date.year, 4), Padded(t.date.month, 2), Padded(t.date.day, 2), ClockText(t, frac)]
  {
    NumberField(t.date.year, 4);
    NumberField(t.date.month, 2);
    NumberField(t.date.day, 2);
    NoDashInClock(t, frac);
    SplitThree(Padded(t.date.year, 4), Padded(t.date.month, 2), Padded(t.date.day, 2), ClockText(t, frac), '-');
  }

  lemma SplitClock(t: Moment, frac: nat)
    ensures SplitOn(ClockText(t, frac), '.') ==
            [Padded(t.hour, 2), Padded(t.minute, 2), Padded(t.second, 2), Padded(frac, 12)]
  {
    NumberField(t.hour, 2);
    NumberField(t.minute, 2);
    NumberField(t.second, 2);
    NumberField(frac, 12);
    SplitThree(Padded(t.hour, 2), Padded(t.minute, 2), Padded(t.second, 2), Padded(frac, 12), '.');
  }

  lemma PartsRead(t: Moment, frac: nat, ds: seq<string>, cs: seq<string>)
    requires ValidMoment(t) && |ds| == 3 && |cs| == 4
    requires forall k :: 0 <= k < 3 ==> PlainNumber(ds[k])
    requires forall k :: 0 <= k < 4 ==> PlainNumber(cs[k])
    requires Value(ds[0]) == t.date.year && Value(ds[1]) == t.date.month && Value(ds[2]) == t.date.day
    requires Value(cs[0]) == t.hour && Value(cs[1]) == t.minute && Value(cs[2]) == t.second && Value(cs[3]) == frac
    ensures FromParts(ds, cs) == Some((TimeGm(t), frac))
  {
  }

  lemma DateParts(d: Date, ds: seq<string>)
    requires ds == [Padded(d.year, 4), Padded(d.month, 2), Padded(d.day, 2)]
    ensures forall k :: 0 <= k < 3 ==> PlainNumber(ds[k])
    ensures Value(ds[0]) == d.year && Value(ds[1]) == d.month && Value(ds[2]) == d.day
  {
    NumberField(d.year, 4);
    NumberField(d.month, 2);
    NumberField(d.day, 2);
  }

  lemma ClockParts(t: Moment, frac: nat, cs: seq<string>)
    requires cs == [Padded(t.hour, 2), Padded(t.minute, 2), Padded(t.second, 2), Padded(frac, 12)]
    ensures forall k :: 0 <= k < 4 ==> PlainNumber(cs[k])
    ensures Value(cs[0]) == t.hour && Value(cs[1]) == t.minute && Value(cs[2]) == t.second && Value(cs[3]) == frac
  {
    NumberField(t.hour, 2);
    NumberField(t.minute, 2);
    NumberField(t.second, 2);
    NumberField(frac, 12);
  }

  lemma ParseMomentText(t: Moment, frac: nat)
    requires ValidMoment(t)
    ensures ParseTs(MomentText(t, frac)) == Some((TimeGm(t), frac))
  {
    SplitTs(t, frac);
    SplitClock(t, frac);
    var ds, cs := SplitOn(MomentText(t, frac), '-'), SplitOn(ClockText(t, frac), '.');
    DateParts(t.date, ds[..3]);
    ClockParts(t, frac, cs);
    PartsRead(t, frac, ds[..3], cs);
  }

  /** `_ts` reads back the seconds and the fraction that `ts12` wrote. */
  lemma ParseTsOfTs12(secs: int, frac: nat)
    requires InRange(secs)
    ensures ParseTs(Ts12(secs, frac).value) == Some((secs, frac))
  {
    TimeGmOfGmTime(secs);
    ParseMomentText(GmTime(secs).value, frac);
  }

  /** `ts12` writes back any canonical text that `_ts` reads. */
  lemma Ts12OfParseTs(t: Moment, frac: nat)
    requires ValidMoment(t)
    ensures var p := ParseTs(MomentText(t, frac));
            p.Some? && Ts12(p.value.0, p.value.1) == Some(MomentText(t, frac))
  {
    ParseMomentText(t, frac);
    GmTimeOfTimeGm(t);
  }

  // ---- adding years ----

  /** `YYYYMMDD`. */
  function Date8Text(d: Date): string { Padded(d.year, 4) + Padded(d.month, 2) + Padded(d.day, 2) }

  function YearsLater(d: Date, years: nat): Date {
    var y := d.year + years;
    Date(y, d.month, if d.month == 2 && d.day == 29 && !IsLeap(y) then 28 else d.day)
  }

  /** `add_years_yyyymmdd`. */
  function AddYears(secs: int, years: nat): Option<string> {
    var t := GmTime(secs);
    if t.None? then None else Some(Date8Text(YearsLater(t.value.date, years)))
  }

  /** Adding years moves only a leap day, and leaves the calendar only past year 9999. */
  lemma YearsLaterReal(d: Date, years: nat)
    requires ValidDate(d)
    ensures var e := YearsLater(d, years);
            && (ValidDate(e) <==> d.year + years <= MAX_YEAR)
            && e.year == d.year + years && e.month == d.month
            && (e.day == d.day || (d.day == 29 && e.day == 28 && !ValidDate(e.(day := 29))))
  {
  }

  lemma Date8Width(d: Date)
    requires ValidDate(d)
    ensures |Date8Text(d)| == 8
  {
    Widths();
    FieldWidth(d.year, 4);
    FieldWidth(d.month, 2);
    FieldWidth(d.day, 2);
  }

  /** The text that is written is that of a real calendar date exactly when its year still has four digits. */
  lemma AddYearsIsRealDate(secs: int, years: nat)
    requires InRange(secs)
    ensures var d := GmTime(secs).value.date;
            var e := YearsLater(d, years);
            && AddYears(secs, years) == Some(Date8Text(e))
            && (ValidDate(e) <==> d.year + years <= MAX_YEAR)
            && (ValidDate(e) ==> |Date8Text(e)| == 8)
  {
    TimeGmOfGmTime(secs);
    var d := GmTime(secs).value.date;
    YearsLaterReal(d, years);
    if ValidDate(YearsLater(d, years)) { Date8Width(YearsLater(d, years)); }
  }
}
