/** `Timestamp12`: TIMESTAMP(12) text, its DATETIME2(7) part and its tail (migration/job/ldm/convert.py). */
module Timestamps {
  import opened Calendar
  import opened Digits
  import opened Results
  import opened Texts

  datatype Timestamp12 = Timestamp12(text: string, moment: Moment, micros: nat, nanosTail: nat)

  /** A pattern that ends in `$` also accepts one newline after the text. */
  function Chopped(text: string, n: nat): string {
    if |text| == n + 1 && text[n] == '\n' then text[..n] else text
  }

  predicate DigitsAt(t: string, lo: nat, hi: nat)
    requires lo <= hi <= |t|
  {
    forall i :: lo <= i < hi ==> IsDigit(t[i])
  }

  /** `YYYY-MM-DD-HH.MM.SS.NNNNNNNNNNNN`, digits and separators only. */
  predicate TimestampShape(t: string) {
    && |t| == 32
    && DigitsAt(t, 0, 4) && t[4] == '-' && DigitsAt(t, 5, 7) && t[7] == '-' && DigitsAt(t, 8, 10) && t[10] == '-'
    && DigitsAt(t, 11, 13) && t[13] == '.' && DigitsAt(t, 14, 16) && t[16] == '.' && DigitsAt(t, 17, 19)
    && t[19] == '.' && DigitsAt(t, 20, 32)
  }

  function MomentIn(t: string): Moment
    requires |t| == 32
  {
    Moment(Date(Value(t[0..4]), Value(t[5..7]), Value(t[8..10])), Value(t[11..13]), Value(t[14..16]), Value(t[17..19]))
  }

  /** `Timestamp12.parse`. */
  function ParseTimestamp12(text: string): Option<Timestamp12> {
    var t := Chopped(text, 32);
    if !TimestampShape(t) || !ValidMoment(MomentIn(t)) then None
    else Some(Timestamp12(text, MomentIn(t), Value(t[20..26]), Value(t[27..32])))
  }

  /** `datetime2_literal`. */
  function Datetime2Literal(ts: Timestamp12): string
    requires |ts.text| >= 32
  {
    var t := ts.text;
    t[0..10] + (" " + (t[11..13] + (":" + (t[14..16] + (":" + (t[17..19] + ("." + t[20..27])))))))
  }

  /** `from_target`: the canonical text rebuilt from a DATETIME2(7) literal and a tail. */
  function FromTarget(dt2: string, nanosTail: nat): Option<Timestamp12> {
    var d, t := if |dt2| >= 10 then dt2[..10] else dt2, if |dt2| >= 11 then dt2[11..] else "";
    match SplitOnce(t, ':')
    case None => None
    case Some((hh, afterHour)) =>
      match SplitOnce(afterHour, ':')
      case None => None
      case Some((mm, rest)) =>
        var (ss, frac) := match SplitOnce(rest, '.') case None => (rest, "") case Some(p) => p;
        var frac7 := (frac + "0000000")[..7];
        ParseTimestamp12(d + ("-" + (hh + ("." + (mm + ("." + (ss + ("." + (frac7 + Padded(nanosTail, 5))))))))))
  }

  lemma LiteralSplits(day: string, hh: string, mm: string, ss: string, f7: string, tail: nat)
    requires |day| == 10 && ':' !in hh && ':' !in mm && '.' !in ss && |f7| == 7
    ensures FromTarget(day + (" " + (hh + (":" + (mm + (":" + (ss + ("." + f7))))))), tail) ==
            ParseTimestamp12(day + ("-" + (hh + ("." + (mm + ("." + (ss + ("." + (f7 + Padded(tail, 5))))))))))
  {
    var t := hh + (":" + (mm + (":" + (ss + ("." + f7)))));
    var dt2 := day + (" " + t);
    assert dt2[..10] == day && dt2[11..] == t;
    SplitOnceFirst(hh, ':', mm + (":" + (ss + ("." + f7))));
    SplitOnceFirst(mm, ':', ss + ("." + f7));
    SplitOnceFirst(ss, '.', f7);
    assert (f7 + "0000000")[..7] == f7;
  }

  lemma NoSeparator(t: string, lo: nat, hi: nat)
    requires lo <= hi <= |t| && DigitsAt(t, lo, hi)
    ensures AllDigits(t[lo..hi]) && ':' !in t[lo..hi] && '.' !in t[lo..hi]
  {
    assert forall i :: 0 <= i < hi - lo ==> t[lo..hi][i] == t[lo + i];
  }

  /** Keeping seven fraction digits in a DATETIME2 and five in a tail loses nothing but a trailing newline. */
  lemma FromTargetOfLiteral(text: string)
    requires ParseTimestamp12(text).Some?
    ensures |text| >= 32 && ParseTimestamp12(text[..32]).Some?
    ensures var ts := ParseTimestamp12(text).value;
            FromTarget(Datetime2Literal(ts), ts.nanosTail) == ParseTimestamp12(text[..32])
    ensures ParseTimestamp12(text[..32]) == ParseTimestamp12(text) <==> |text| == 32
  {
    var ts := ParseTimestamp12(text).value;
    var t := text[..32];
    assert Chopped(text, 32) == t && Chopped(t, 32) == t;
    NoSeparator(t, 11, 13);
    NoSeparator(t, 14, 16);
    NoSeparator(t, 17, 19);
    NoSeparator(t, 27, 32);
    TailText(t[27..32]);
    SameLiteral(text, ts);
    LiteralSplits(t[0..10], t[11..13], t[14..16], t[17..19], t[20..27], ts.nanosTail);
    Reassembled(t);
  }

  lemma SameLiteral(text: string, ts: Timestamp12)
    requires |text| >= 32 && ts.text == text
    ensures var t := text[..32];
            Datetime2Literal(ts) ==
            t[0..10] + (" " + (t[11..13] + (":" + (t[14..16] + (":" + (t[17..19] + ("." + t[20..27])))))))
  {
    var t := text[..32];
    assert t[0..10] == text[0..10] && t[11..13] == text[11..13] && t[14..16] == text[14..16];
    assert t[17..19] == text[17..19] && t[20..27] == text[20..27];
  }

  lemma TailText(tail: string)
    requires |tail| == 5 && AllDigits(tail)
    ensures Padded(Value(tail), 5) == tail
  {
    FixedOfValue(tail);
    NumDigitsBound(Value(tail), |tail|);
  }

  lemma Reassembled(t: string)
    requires TimestampShape(t)
    ensures t[0..10] + ("-" + (t[11..13] + ("." + (t[14..16] + ("." + (t[17..19] + ("." + (t[20..27] + t[27..32]))))))))
            == t
  {
  }

  lemma FieldDigits(s: string)
    requires AllDigits(s) && |s| >= 1
    ensures Padded(Value(s), |s|) == s && Value(s) < Pow10(|s|)
  {
    FixedOfValue(s);
    NumDigitsBound(Value(s), |s|);
  }

  lemma MomentTextPieces(t: string)
    requires TimestampShape(t)
    ensures t[0..4] + ("-" + (t[5..7] + ("-" + (t[8..10] + ("-" + (t[11..13] + ("." + (t[14..16] + ("." +
            (t[17..19] + ("." + t[20..32]))))))))))) == t
  {
  }

  /** Accepted 32-character text is exactly the canonical text of the moment and fraction it denotes. */
  lemma AcceptedIsCanonical(t: string)
    requires TimestampShape(t)
    ensures MomentText(MomentIn(t), Value(t[20..32])) == t
    ensures Value(t[20..32]) < Pow10(12)
  {
    FieldDigits(t[0..4]);
    FieldDigits(t[5..7]);
    FieldDigits(t[8..10]);
    FieldDigits(t[11..13]);
    FieldDigits(t[14..16]);
    FieldDigits(t[17..19]);
    FieldDigits(t[20..32]);
    MomentTextPieces(t);
  }

  lemma Piece(t: string, k: nat, a: string, sep: char, rest: string)
    requires k <= |t| && t[k..] == a + ([sep] + rest) && AllDigits(a)
    ensures |t| >= k + |a| + 1
    ensures t[k..k + |a|] == a && t[k + |a|] == sep && t[k + |a| + 1..] == rest
    ensures DigitsAt(t, k, k + |a|)
  {
    var u := t[k..];
    assert u[..|a|] == a && u[|a|] == sep && u[|a| + 1..] == rest;
    assert t[k..k + |a|] == u[..|a|];
    forall i | k <= i < k + |a|
      ensures IsDigit(t[i])
    {
      assert t[i] == a[i - k];
    }
  }

  lemma TextFields(t: string, y: string, mo: string, d: string, h: string, mi: string, s: string, f: string)
    requires |y| == 4 && |mo| == |d| == |h| == |mi| == |s| == 2 && |f| == 12
    requires AllDigits(y) && AllDigits(mo) && AllDigits(d) && AllDigits(h) && AllDigits(mi) && AllDigits(s) && AllDigits(f)
    requires t == y + ("-" + (mo + ("-" + (d + ("-" + (h + ("." + (mi + ("." + (s + ("." + f)))))))))))
    ensures TimestampShape(t)
    ensures t[0..4] == y && t[5..7] == mo && t[8..10] == d && t[11..13] == h && t[14..16] == mi && t[17..19] == s
    ensures t[20..32] == f
  {
    var r5 := s + ("." + f);
    var r4 := mi + ("." + r5);
    var r3 := h + ("." + r4);
    var r2 := d + ("-" + r3);
    var r1 := mo + ("-" + r2);
    assert t[0..] == t;
    Piece(t, 0, y, '-', r1);
    Piece(t, 5, mo, '-', r2);
    Piece(t, 8, d, '-', r3);
    Piece(t, 11, h, '.', r4);
    Piece(t, 14, mi, '.', r5);
    Piece(t, 17, s, '.', f);
    assert t[20..] == f;
    assert |t| == 32;
    assert forall i :: 20 <= i < 32 ==> t[i] == f[i - 20];
  }

  /** Conversely, the canonical text of every valid moment and fraction is accepted and denotes them. */
  lemma CanonicalIsAccepted(m: Moment, frac: nat)
    requires ValidMoment(m) && frac < FRAC
    ensures var t := MomentText(m, frac);
            && TimestampShape(t) && MomentIn(t) == m && Value(t[20..32]) == frac
            && ParseTimestamp12(t).Some? && ParseTimestamp12(t).value.moment == m
  {
    Widths();
    FieldWidth(m.date.year, 4);
    FieldWidth(m.date.month, 2);
    FieldWidth(m.date.day, 2);
    FieldWidth(m.hour, 2);
    FieldWidth(m.minute, 2);
    FieldWidth(m.second, 2);
    FieldWidth(frac, 12);
    FieldValues(m, frac);
    TextFields(MomentText(m, frac), Padded(m.date.year, 4), Padded(m.date.month, 2), Padded(m.date.day, 2),
      Padded(m.hour, 2), Padded(m.minute, 2), Padded(m.second, 2), Padded(frac, 12));
  }

  lemma FieldValues(m: Moment, frac: nat)
    ensures Value(Padded(m.date.year, 4)) == m.date.year && Value(Padded(m.date.month, 2)) == m.date.month
    ensures Value(Padded(m.date.day, 2)) == m.date.day && Value(Padded(m.hour, 2)) == m.hour
    ensures Value(Padded(m.minute, 2)) == m.minute && Value(Padded(m.second, 2)) == m.second
    ensures Value(Padded(frac, 12)) == frac
  {
    ValueOfPadded(m.date.year, 4);
    ValueOfPadded(m.date.month, 2);
    ValueOfPadded(m.date.day, 2);
    ValueOfPadded(m.hour, 2);
    ValueOfPadded(m.minute, 2);
    ValueOfPadded(m.second, 2);
    ValueOfPadded(frac, 12);
  }
}
