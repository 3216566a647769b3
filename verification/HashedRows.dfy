/** What equal hash inputs say about two rows (migration/job/ldm/hashing.py). */
module HashedRows {
  import opened Arith
  import opened Bytes
  import opened Calendar
  import opened Codecs
  import opened Convert
  import opened Decimals
  import opened Digits
  import opened Hashing
  import Packed
  import opened Results
  import opened Texts
  import opened Timestamps

  // ---- what a rendering determines ----

  /** Quotient and remainder. */
  function Split(n: nat, p: nat): (r: (nat, nat))
    requires p > 0
    ensures n == r.0 * p + r.1 && r.1 < p
  {
    (n / p, n % p)
  }

  /** A number in two parts, with a point between them. */
  function Pointed(parts: (nat, nat), k: nat): string { Str(parts.0) + ("." + Fixed(parts.1, k)) }

  /** The text of the number `n * 10^-k`. */
  function PointText(n: int, k: nat): string { (if n < 0 then "-" else "") + Pointed(Split(Abs(n), Pow10(k)), k) }

  lemma FormattedPoint(neg: bool, c: nat, k: nat)
    requires k >= 1
    ensures FormatF(Decimal(neg, c, Neg(k))) == (if neg then "-" else "") + Pointed(Split(c, Pow10(k)), k)
  {
    var (hi, lo) := Split(c, Pow10(k));
    FormatOfParts(neg, hi, lo, k);
  }

  /**
   * A decimal is rendered as its value rounded half to even to eight fraction digits, without a sign when
   * that is zero; it is not rendered when the rounded value has more than 64 digits.
   */
  lemma DecimalRendered(d: Decimal, n: int)
    requires RoundsTo(d, 8, n)
    ensures RenderDecimal(d) == if NumDigits(Abs(n)) <= 64 then Some(PointText(n, 8)) else None
  {
    var k: nat := 8;
    assert RoundsTo(d, k, n);
    RenderedAt(d, k, n);
  }

  lemma RenderedAt(d: Decimal, k: nat, n: int)
    requires RoundsTo(d, k, n) && k == 8
    ensures RenderDecimal(d) == if NumDigits(Abs(n)) <= 64 then Some(PointText(n, k)) else None
  {
    RoundsToExactly(d, k, n);
    FormattedPoint(n < 0, Abs(n), k);
  }

  lemma NoLeadingDash(n: nat, rest: string)
    ensures Str(n) != "" && IsDigit(Str(n)[0]) && (Str(n) + rest)[0] == Str(n)[0]
  {
  }

  lemma StrInjective(m: nat, n: nat)
    ensures Str(m) == Str(n) <==> m == n
  {
    NumDigitsBound(m, NumDigits(m));
    NumDigitsBound(n, NumDigits(n));
    ValueOfFixed(m, NumDigits(m));
    ValueOfFixed(n, NumDigits(n));
  }

  /** The text of two numbers before and after the point determines both. */
  lemma PointApart(a: string, b: string, c: string, d: string)
    requires |b| == |d|
    ensures a + ("." + b) == c + ("." + d) <==> a == c && b == d
  {
    var s, t := a + ("." + b), c + ("." + d);
    if s == t {
      assert |s| == |a| + 1 + |b| && |t| == |c| + 1 + |d|;
      assert s[..|a|] == a && t[..|c|] == c && s[|a| + 1..] == b && t[|c| + 1..] == d;
    }
  }

  lemma PointedInjective(m: nat, n: nat, k: nat)
    ensures Pointed(Split(m, Pow10(k)), k) == Pointed(Split(n, Pow10(k)), k) <==> m == n
  {
    var x, y := Split(m, Pow10(k)), Split(n, Pow10(k));
    PointApart(Str(x.0), Fixed(x.1, k), Str(y.0), Fixed(y.1, k));
    StrInjective(x.0, y.0);
    FixedOrder(x.1, y.1, k);
  }

  lemma DashApart(s: string, t: string)
    requires s != "" && t != "" && IsDigit(s[0]) && IsDigit(t[0])
    ensures "-" + s != t && s != "-" + t && "" + s == s && "" + t == t
    ensures "-" + s == "-" + t <==> s == t
  {
    assert ("-" + s)[0] == '-' && ("-" + t)[0] == '-';
    assert ("-" + s)[1..] == s && ("-" + t)[1..] == t;
  }

  lemma PointTextInjective(m: int, n: int, k: nat)
    ensures PointText(m, k) == PointText(n, k) <==> m == n
  {
    var x, y := Split(Abs(m), Pow10(k)), Split(Abs(n), Pow10(k));
    PointedInjective(Abs(m), Abs(n), k);
    NoLeadingDash(x.0, "." + Fixed(x.1, k));
    NoLeadingDash(y.0, "." + Fixed(y.1, k));
    DashApart(Pointed(x, k), Pointed(y, k));
  }

  /** Two decimals are the same once rounded half to even to eight fraction digits. */
  ghost predicate SameToEight(d: Decimal, e: Decimal) {
    exists n: int :: RoundsTo(d, 8, n) && RoundsTo(e, 8, n)
  }

  /** Renderings of decimals are equal exactly when the values rounded to eight fraction digits are. */
  lemma DecimalsRenderAlike(d: Decimal, e: Decimal)
    requires RenderDecimal(d).Some? && RenderDecimal(e).Some?
    ensures RenderDecimal(d) == RenderDecimal(e) <==> SameToEight(d, e)
  {
    var m, n := SignedRounding(d, 8), SignedRounding(e, 8);
    RoundsToExactly(d, 8, m);
    RoundsToExactly(e, 8, n);
    RoundsToExactly(d, 8, n);
    DecimalRendered(d, m);
    DecimalRendered(e, n);
    PointTextInjective(m, n, 8);
    if x: int :| RoundsTo(d, 8, x) && RoundsTo(e, 8, x) {
      RoundsToExactly(d, 8, x);
      RoundsToExactly(e, 8, x);
    }
  }

  /** Integers are rendered as their digits, without leading zeros, behind a minus sign when they are negative. */
  lemma IntegersRenderAlike(i: int, j: int)
    ensures SignedText(i) == SignedText(j) <==> i == j
    ensures i >= 0 ==> AllDigits(SignedText(i)) && Value(SignedText(i)) == i && |SignedText(i)| == NumDigits(i)
    ensures i < 0 ==> SignedText(i) == "-" + SignedText(-i)
  {
    ValueOfPadded(Abs(i), 1);
    NoLeadingDash(Abs(i), "");
    NoLeadingDash(Abs(j), "");
    StrInjective(Abs(i), Abs(j));
    DashApart(Str(Abs(i)), Str(Abs(j)));
  }

  lemma HexDigits(m: nibble, n: nibble)
    ensures HexDigit(m) == HexDigit(n) <==> m == n
    ensures HexDigit(m) == "0123456789ABCDEF"[m]
  {
  }

  lemma HexAt(raw: seq<byte>, i: nat)
    requires i < |raw|
    ensures |HexUpper(raw)| == 2 * |raw|
    ensures HexUpper(raw)[2 * i] == "0123456789ABCDEF"[raw[i] / 16]
    ensures HexUpper(raw)[2 * i + 1] == "0123456789ABCDEF"[raw[i] % 16]
  {
    HexDigits(raw[i] / 16, 0);
    HexDigits(raw[i] % 16, 0);
  }

  /** Bytes are rendered as two hexadecimal digits each, so renderings are equal exactly when the bytes are. */
  lemma BytesRenderAlike(a: seq<byte>, b: seq<byte>)
    ensures HexUpper(a) == HexUpper(b) <==> a == b
  {
    var s, t := HexUpper(a), HexUpper(b);
    if s == t {
      forall i | 0 <= i < |a|
        ensures a[i] == b[i]
      {
        HexAt(a, i);
        HexAt(b, i);
        HexDigits(a[i] / 16, b[i] / 16);
        HexDigits(a[i] % 16, b[i] % 16);
      }
    }
  }

  /** The seed's hexadecimal reader reads them back. */
  lemma HexRoundTrip(raw: seq<byte>)
    ensures Packed.FromHex(HexUpper(raw)) == Some(raw)
  {
    var text := HexUpper(raw);
    forall i | 0 <= i < |text|
      ensures Packed.HexValue(text[i]) == Some(Nibbles(raw)[i])
    {
      HexDigits(Nibbles(raw)[i], 0);
    }
    var ns := seq(|text|, i requires 0 <= i < |text| && Packed.HexValue(text[i]).Some? => Packed.HexValue(text[i]).value);
    assert ns == Nibbles(raw);
    forall k | 0 <= k < |raw|
      ensures FromNibbles(ns)[k] == raw[k]
    {
      assert ns[2 * k] == raw[k] / 16 && ns[2 * k + 1] == raw[k] % 16;
    }
    assert FromNibbles(ns) == raw;
  }

  lemma DatesRenderAlike(d: Date, e: Date)
    requires ValidDate(d) && ValidDate(e)
    ensures StrfDate(d) == StrfDate(e) <==> d == e
  {
    assert Pow10(2) == 100;
    FieldWidth(d.month, 2);
    FieldWidth(d.day, 2);
    FieldWidth(e.month, 2);
    FieldWidth(e.day, 2);
    var s, t := StrfDate(d), StrfDate(e);
    StrInjective(d.year, e.year);
    if s == t {
      assert s[..|s| - 4] == Str(d.year) && t[..|t| - 4] == Str(e.year);
      assert s[|s| - 4..|s| - 2] == Padded(d.month, 2) && t[|t| - 4..|t| - 2] == Padded(e.month, 2);
      assert s[|s| - 2..] == Padded(d.day, 2) && t[|t| - 2..] == Padded(e.day, 2);
      ValueOfPadded(d.month, 2);
      ValueOfPadded(e.month, 2);
      ValueOfPadded(d.day, 2);
      ValueOfPadded(e.day, 2);
    }
  }

  // ---- what equal hash inputs determine ----

  /** A stored value has the type that the column's kind is loaded as. */
  predicate StoredAs(c: Cell, kind: Kind) {
    match kind
    case KChar => c.VText?
    case KInt => c.VInt?
    case KDecimal => c.VDec?
    case KBinary => c.VBytes?
    case KTimestamp12 => c.VTimestamp?
    case KDate8 => c.VDate? && ValidDate(c.date)
  }

  /** The two values are the same in a hash: decimals to eight places, and text but for trailing blanks outside a key. */
  ghost predicate SameCell(a: Cell, b: Cell, isKey: bool) {
    match (a, b)
    case (VText(s), VText(t)) => if isKey then s == t else Rstrip(s) == Rstrip(t)
    case (VInt(i), VInt(j)) => i == j
    case (VDec(d), VDec(e)) => SameToEight(d, e)
    case (VBytes(x), VBytes(y)) => x == y
    case (VDate(d), VDate(e)) => d == e
    case (VTimestamp(t), VTimestamp(u)) => if isKey then t.text == u.text else Rstrip(t.text) == Rstrip(u.text)
    case _ => false
  }

  lemma NoBlankAtEnd(d: Date, raw: seq<byte>)
    requires ValidDate(d)
    ensures RenderText(StrfDate(d), true) == RenderText(StrfDate(d), false)
    ensures RenderText(HexUpper(raw), true) == RenderText(HexUpper(raw), false)
  {
    StrfDateDigits(d);
    RstripDigits(StrfDate(d));
    if raw != [] { HexAt(raw, |raw| - 1); }
    RstripDigits(HexUpper(raw));
  }

  /** Two stored values of one column are rendered alike exactly when they are the same in a hash. */
  lemma CellsRenderAlike(a: Cell, b: Cell, spec: ColumnSpec)
    requires StoredAs(a, spec.kind) && StoredAs(b, spec.kind)
    requires RenderTarget(a, spec).Some? && RenderTarget(b, spec).Some?
    ensures RenderTarget(a, spec) == RenderTarget(b, spec) <==> SameCell(a, b, spec.isKey)
  {
    match spec.kind
    case KInt => IntegersRenderAlike(a.i, b.i);
    case KDecimal => DecimalsRenderAlike(a.d, b.d);
    case KDate8 =>
      NoBlankAtEnd(a.date, []);
      NoBlankAtEnd(b.date, []);
      DatesRenderAlike(a.date, b.date);
    case KBinary =>
      NoBlankAtEnd(Date(1, 1, 1), a.bytes);
      NoBlankAtEnd(Date(1, 1, 1), b.bytes);
      BytesRenderAlike(a.bytes, b.bytes);
    case KChar | KTimestamp12 =>
  }

  lemma ConvertedIsStored(raw: seq<byte>, spec: ColumnSpec, py: Python)
    requires ConvertField(raw, spec, py).Ok?
    ensures StoredAs(ConvertField(raw, spec, py).value.0, spec.kind)
  {
  }

  ghost predicate StoredRow(cells: seq<Cell>, specs: seq<ColumnSpec>) {
    |cells| == |specs| && forall i :: 0 <= i < |specs| ==> StoredAs(cells[i], specs[i].kind)
  }

  ghost predicate SameRow(a: seq<Cell>, b: seq<Cell>, specs: seq<ColumnSpec>)
    requires |a| == |b| == |specs|
  {
    forall i :: 0 <= i < |specs| ==> SameCell(a[i], b[i], specs[i].isKey)
  }

  /** Two stored rows have equal hash inputs exactly when every column is the same. */
  lemma RowsHashAlike(a: seq<Cell>, b: seq<Cell>, specs: seq<ColumnSpec>)
    requires StoredRow(a, specs) && StoredRow(b, specs)
    requires NoSeparators(Renderings(a, specs, false)) && NoSeparators(Renderings(b, specs, false))
    ensures HashInput(a, specs, false) == HashInput(b, specs, false) <==> SameRow(a, b, specs)
  {
    var x, y := Renderings(a, specs, false), Renderings(b, specs, false);
    SameInputs(x, y);
    forall i | 0 <= i < |specs|
      ensures x[i] == y[i] <==> SameCell(a[i], b[i], specs[i].isKey)
    {
      assert StoredAs(a[i], specs[i].kind) && StoredAs(b[i], specs[i].kind);
      assert x[i].Some? && y[i].Some?;
      CellsRenderAlike(a[i], b[i], specs[i]);
    }
  }

  /**
   * The hash of a source row whose columns agree equals the hash of a stored row exactly when the row is, in
   * every column, what the source row converts to: decimals to eight places, text but for trailing blanks.
   */
  lemma SourceHashDetects(
    raws: seq<seq<byte>>, stored: seq<Cell>, specs: seq<ColumnSpec>, py: Python)
    requires AcceptedRow(raws, specs, py) && StoredRow(stored, specs)
    requires forall i :: 0 <= i < |specs| ==> Agrees(Sources(raws, specs, py)[i], specs[i])
    requires NoSeparators(Renderings(Sources(raws, specs, py), specs, true))
    requires NoSeparators(Renderings(Targets(raws, specs, py), specs, false))
    requires NoSeparators(Renderings(stored, specs, false))
    ensures HashInput(Sources(raws, specs, py), specs, true) == HashInput(stored, specs, false) <==>
            SameRow(Targets(raws, specs, py), stored, specs)
  {
    var targets := Targets(raws, specs, py);
    HashInputsAgree(raws, specs, py);
    forall i | 0 <= i < |specs|
      ensures StoredAs(targets[i], specs[i].kind)
    {
      ConvertedIsStored(raws[i], specs[i], py);
    }
    RowsHashAlike(targets, stored, specs);
  }
}
