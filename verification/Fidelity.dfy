/** Which values a written record gives back as they were (migration/job/ldm/convert.py). */
module Fidelity {
  import opened Arith
  import Bits
  import opened Bytes
  import opened Codecs
  import opened Convert
  import opened Copybook
  import opened Decimals
  import opened Digits
  import opened Encode
  import opened Results
  import opened RoundTrip
  import opened Timestamps

  // ---- numbers ----

  function NumberOf(v: SourceValue): Option<Decimal> {
    match v
    case SInt(i) => Some(Scaled(i, 0))
    case SDec(d) => Some(d)
    case _ => None
  }

  /** The fraction digits that a column keeps of a number. */
  function KeptScale(spec: ColumnSpec): nat { if spec.kind == KInt then 0 else spec.field.layout.scale }

  /** The integer that a number should leave: rounded half to even to the fraction digits of its column. */
  function Wanted(d: Decimal, spec: ColumnSpec): int { Signed(d.neg, RoundedCoeff(d, KeptScale(spec))) }

  function NumberCells(i: int, spec: ColumnSpec): (Cell, Cell) {
    if spec.kind == KInt then (VInt(i), VInt(i))
    else (VDec(Scaled(i, spec.field.layout.scale)), VDec(Scaled(i, spec.field.layout.scale)))
  }

  predicate RoundsToZero(d: Decimal, scale: nat) { RoundedCoeff(d, scale) == 0 }

  /** The fraction is at most a half, and a half only above an even number. */
  predicate RoundsDown(d: Decimal) {
    d.exp >= 0 || RoundHalfEven(d.coeff, Pow10(-d.exp)) == d.coeff / Pow10(-d.exp)
  }

  /**
   * When a number comes back as it should. Packed decimals always do. Binary fields cut the fraction off and ignore the
   * scale; integer columns ignore it when they read; display fields have no sign, and at scale 0 show fraction digits.
   */
  predicate Kept(d: Decimal, spec: ColumnSpec) {
    var scale := spec.field.layout.scale;
    match spec.field.usage
    case Comp => if KeptScale(spec) == 0 then RoundsDown(d) else RoundsToZero(d, scale)
    case Comp3 => KeptScale(spec) == scale || RoundsToZero(d, scale)
    case Display =>
      && (!d.neg || RoundsToZero(d, KeptScale(spec)))
      && (if scale == 0 then d.coeff == 0 || d.exp >= 0 else KeptScale(spec) == scale || RoundsToZero(d, scale))
  }

  lemma DivAtLeast(c: nat, m: nat, k: nat)
    requires m > 0 && c >= m * k
    ensures c / m >= k
  {
    if c / m < k { MulLess(c / m, k, m); }
  }

  /** Rounding in units of ten or more makes a positive number smaller. */
  lemma RoundedIsLess(c: nat, m: nat)
    requires m >= 10 && c > 0
    ensures RoundHalfEven(c, m) < c && c / m < c
  {
    var q := c / m;
    assert c == m * q + c % m;
    if q > 0 { MulLess(9, m, q); }
  }

  lemma FloorOfFloor(c: nat, m: nat, p: nat)
    requires m > 0 && p > 0
    ensures m * p > 0 && c / m >= p * (c / (m * p))
  {
    MulAtLeast(p, m);
    MulAssociates(m, p, c / (m * p));
    QuotientBelow(c, m * p);
    DivAtLeast(c, m, p * (c / (m * p)));
  }

  lemma MulAssociates(a: nat, b: nat, c: nat)
    ensures a * b == b * a && (a * b) * c == a * (b * c)
  {
  }

  lemma QuotientBelow(c: nat, d: nat)
    requires d > 0
    ensures d * (c / d) <= c
  {
  }

  lemma HalfUnit(c: nat, unit: nat)
    requires unit > 0
    ensures RoundHalfEven(c, unit) <= c / unit + 1
    ensures 2 * c < unit ==> RoundHalfEven(c, unit) == 0
    ensures RoundHalfEven(c, unit) >= c / unit
  {
    if 2 * c < unit { DivUnique(c, unit, 0, c); }
  }

  /** And in ten times larger units, or more, smaller than in the smaller ones. */
  lemma CoarserIsLess(c: nat, m: nat, p: nat)
    requires m > 0 && p >= 10 && RoundHalfEven(c, m) > 0
    ensures m * p > 0
    ensures RoundHalfEven(c, m * p) < RoundHalfEven(c, m) && c / (m * p) < RoundHalfEven(c, m)
  {
    FloorOfFloor(c, m, p);
    var unit := m * p;
    var q := c / unit;
    HalfUnit(c, unit);
    HalfUnit(c, m);
    if q > 0 {
      MulLess(9, p, q);
    } else if 2 * c >= unit {
      MulLess(9, p, m);
      assert p * m == unit;
      DivAtLeast(c, m, 5);
    }
  }

  lemma TenOrMore(k: nat)
    requires k > 0
    ensures Pow10(k) >= 10
  {
  }

  /** A number keeps its rounded digits at another scale only when they are zero. */
  lemma ScaleMatters(d: Decimal, scale: nat)
    requires scale > 0
    ensures RoundedCoeff(d, scale) == RoundedCoeff(d, 0) <==> RoundsToZero(d, scale)
    ensures Whole(d) == RoundedCoeff(d, scale) <==> RoundsToZero(d, scale)
  {
    TenOrMore(scale);
    var c := d.coeff;
    if d.exp >= 0 {
      Pow10Add(d.exp, scale);
      Larger(c, Pow10(d.exp), Pow10(scale));
    } else if d.exp + scale >= 0 {
      TenOrMore(-d.exp);
      if c > 0 {
        RoundedIsLess(c, Pow10(-d.exp));
        MulAtLeast(c, Pow10(d.exp + scale));
      }
    } else {
      Pow10Add(-(d.exp + scale), scale);
      if RoundedCoeff(d, scale) > 0 {
        CoarserIsLess(c, Pow10(-(d.exp + scale)), Pow10(scale));
      } else {
        ZeroStays(c, Pow10(-(d.exp + scale)), Pow10(scale));
      }
    }
  }

  lemma Larger(c: nat, a: nat, b: nat)
    requires a > 0 && b >= 10
    ensures c * (a * b) == c * a <==> c == 0
    ensures c * (a * b) == 0 <==> c == 0
  {
    if c > 0 {
      MulAtLeast(c, a);
      assert c * (a * b) == (c * a) * b;
      MulLess(9, b, c * a);
    }
  }

  lemma ZeroStays(c: nat, m: nat, p: nat)
    requires m > 0 && p >= 10 && RoundHalfEven(c, m) == 0
    ensures m * p > 0 && RoundHalfEven(c, m * p) == 0 && c / (m * p) == 0
  {
    assert c / m == 0;
    assert c == m * (c / m) + c % m;
    MulLess(9, p, m);
    assert m * p == p * m;
    DivUnique(c, m * p, 0, c);
  }

  lemma CompKept(d: Decimal, spec: ColumnSpec)
    requires spec.field.usage == Comp
    ensures Signed(d.neg, Whole(d)) == Wanted(d, spec) <==> Kept(d, spec)
  {
    if KeptScale(spec) > 0 {
      ScaleMatters(d, spec.field.layout.scale);
    }
  }

  lemma PackedKept(d: Decimal, spec: ColumnSpec)
    requires spec.field.usage == Comp3
    ensures Signed(d.neg, RoundedCoeff(d, spec.field.layout.scale)) == Wanted(d, spec) <==> Kept(d, spec)
  {
    if KeptScale(spec) != spec.field.layout.scale { ScaleMatters(d, spec.field.layout.scale); }
  }

  /** At scale 0 a display field shows the rounded number exactly when the number has no fraction digits. */
  lemma ShownIsRounded(d: Decimal)
    requires NumDigits(d.coeff) <= PRECISION
    ensures ShownNumber(d, 0) == RoundedCoeff(d, 0) <==> d.coeff == 0 || d.exp >= 0
  {
    if d.exp < 0 {
      TenOrMore(-d.exp);
      if d.coeff > 0 { RoundedIsLess(d.coeff, Pow10(-d.exp)); } else { ZeroRounds(d, 0); }
    }
  }

  lemma DisplayKept(d: Decimal, spec: ColumnSpec)
    requires spec.field.usage == Display && (spec.field.layout.scale == 0 ==> NumDigits(d.coeff) <= PRECISION)
    ensures ShownNumber(d, spec.field.layout.scale) == Wanted(d, spec) <==> Kept(d, spec)
  {
    var scale := spec.field.layout.scale;
    if scale == 0 {
      ShownIsRounded(d);
    } else if KeptScale(spec) != scale {
      ScaleMatters(d, scale);
    }
  }

  lemma {:induction false} PowersCompare(n: nat)
    ensures Bits.Pow2(n) <= Pow10(n)
  {
    if n == 0 {
    } else {
      PowersCompare(n - 1);
    }
  }

  lemma RoundedIsLong(c: nat, extra: nat, w: nat)
    requires extra > 0 && NumDigits(c) > w + extra
    ensures RoundHalfEven(c, Pow10(extra)) >= Pow10(w)
  {
    NumDigitsBound(c, w + extra);
    Pow10Add(w, extra);
    MulAssociates(Pow10(w), Pow10(extra), 1);
    DivAtLeast(c, Pow10(extra), Pow10(w));
    HalfUnit(c, Pow10(extra));
  }

  lemma NumeralAtLeast(d: Decimal)
    ensures PlainNumeral(d) >= d.coeff
  {
    if d.exp > 0 && d.coeff > 0 { MulAtLeast(d.coeff, Pow10(d.exp)); }
  }

  lemma LongIsShownLong(d: Decimal)
    requires NumDigits(d.coeff) > PRECISION
    ensures ShownNumber(d, 0) >= Pow10(PRECISION - 1)
  {
    var extra := NumDigits(d.coeff) - PRECISION;
    var c := RoundHalfEven(d.coeff, Pow10(extra));
    RoundedIsLong(d.coeff, extra, PRECISION - 1);
    NumeralAtLeast(AbsRounded(d));
    if NumDigits(c) > PRECISION {
      NumDigitsBound(c, PRECISION);
      assert Pow10(PRECISION) == 10 * Pow10(PRECISION - 1);
    }
  }

  /** A number of more digits than the precision shows more digits than any column takes. */
  lemma LongNumberRefused(i: nat, spec: ColumnSpec, py: Python)
    requires i >= Pow10(PRECISION - 1) && spec.field.layout.scale == 0
    requires spec.kind == KInt || (spec.kind == KDecimal && spec.targetPrecision < PRECISION)
    ensures ReadNumber(i, spec, py).Err?
  {
    if spec.kind == KInt {
      var bits := IntBits(spec.targetBase);
      PowersCompare(bits);
      Pow10Monotone(bits, PRECISION - 1);
    } else {
      NumDigitsBound(i, PRECISION - 1);
    }
  }

  /** A zero leaves a zero, and any other number what its magnitude does. */
  lemma HeldOfNumber(v: SourceValue, f: Field, py: Python)
    requires NumberOf(v).Some?
    ensures var d := NumberOf(v).value;
            HeldInteger(Some(v), f, py) ==
            Some(match f.usage
                 case Comp => Signed(d.neg, Whole(d))
                 case Comp3 => Signed(d.neg, RoundedCoeff(d, f.layout.scale))
                 case Display => if d.coeff == 0 then 0 else ShownNumber(d, f.layout.scale))
  {
    var d := NumberOf(v).value;
    if d.coeff == 0 {
      ZeroRounds(d, f.layout.scale);
      ZeroRounds(Scaled(0, 0), f.layout.scale);
    }
  }

  /**
   * A number that a column accepts comes back as the number rounded to the fraction digits of the column exactly when it
   * is of the kept ones. The precision is that of every column that is built.
   */
  lemma NumberKeptExactly(v: SourceValue, spec: ColumnSpec, py: Python)
    requires NumberOf(v).Some? && spec.field.layout.isNumeric && (spec.kind == KInt || spec.kind == KDecimal)
    requires spec.kind == KDecimal ==> spec.targetPrecision < PRECISION
    requires Expected(Some(v), spec, py).Ok?
    ensures var d := NumberOf(v).value;
            Expected(Some(v), spec, py).value == NumberCells(Wanted(d, spec), spec) <==> Kept(d, spec)
    ensures var d := NumberOf(v).value;
            && (spec.kind == KInt ==> Wanted(d, spec) == Signed(d.neg, RoundedCoeff(d, 0)))
            && (spec.kind == KDecimal ==> Wanted(d, spec) == Signed(d.neg, RoundedCoeff(d, spec.field.layout.scale)))
  {
    var d, scale := NumberOf(v).value, spec.field.layout.scale;
    HeldOfNumber(v, spec.field, py);
    match spec.field.usage
    case Comp => CompKept(d, spec);
    case Comp3 => PackedKept(d, spec);
    case Display =>
      if d.coeff == 0 {
        ZeroRounds(d, 0);
        ZeroRounds(d, scale);
      } else {
        if scale == 0 && NumDigits(d.coeff) > PRECISION {
          LongIsShownLong(d);
          LongNumberRefused(ShownNumber(d, 0), spec, py);
        }
        DisplayKept(d, spec);
      }
  }

  const FIVE := Decimal(false, 50, -1)

  /** 5.0 in a display field without fraction digits is read back as 50. */
  lemma FiveIsReadAsFifty(spec: ColumnSpec, py: Python)
    requires spec.kind == KDecimal && spec.field.layout.isNumeric && spec.field.usage == Display
    requires spec.field.layout.scale == 0 && spec.targetPrecision >= spec.targetScale + 2
    ensures Expected(Some(SDec(FIVE)), spec, py) == Ok(NumberCells(50, spec))
    ensures Wanted(FIVE, spec) == 5
  {
    assert Pow10(1) == 10;
    assert NumDigits(50) == 2;
  }

  /** An integer column over a packed field with fraction digits reads the integer that many digits larger. */
  lemma IntegerIsShifted(i: int, spec: ColumnSpec, py: Python)
    requires spec.kind == KInt && spec.field.layout.isNumeric && spec.field.usage == Comp3
    ensures Expected(Some(SInt(i)), spec, py) == ConvertInt(i * Pow10(spec.field.layout.scale), spec)
    ensures i * Pow10(spec.field.layout.scale) == i <==> spec.field.layout.scale == 0 || i == 0
  {
    var p := Pow10(spec.field.layout.scale);
    if spec.field.layout.scale > 0 { TenOrMore(spec.field.layout.scale); }
    if i > 0 && p > 1 { MulLess(1, p, i); } else if i < 0 && p > 1 { MulLess(1, p, -i); }
    assert Signed(i < 0, Abs(i) * p) == i * p;
  }

  /** A display field loses the sign. */
  lemma SignIsLost(d: Decimal, spec: ColumnSpec, py: Python)
    requires spec.field.layout.isNumeric && spec.field.usage == Display
    ensures Expected(Some(SDec(d)), spec, py) == Expected(Some(SDec(AbsDecimal(d))), spec, py)
  {
    HeldOfNumber(SDec(d), spec.field, py);
    HeldOfNumber(SDec(AbsDecimal(d)), spec.field, py);
    assert ShownNumber(d, spec.field.layout.scale) == ShownNumber(AbsDecimal(d), spec.field.layout.scale);
  }

  // ---- verbatim bytes ----

  lemma {:induction false} FirstUnmapped(b: seq<byte>, pad: byte, k: nat, codec: Codec)
    requires codec.Decode(b).Err?
    ensures codec.Decode(b + seq(k, _ => pad)) == Err(codec.Decode(b).error)
  {
    var raw := b + seq(k, _ => pad);
    if k == 0 {
      assert raw == b;
    } else {
      FirstUnmapped(b, pad, k - 1, codec);
      assert raw[..|raw| - 1] == b + seq(k - 1, _ => pad);
    }
  }

  predicate PadIsBlank(spec: ColumnSpec) { PadByte(spec) in spec.codec.decode && spec.codec.decode[PadByte(spec)] == ' ' }

  lemma DecodePadded(b: seq<byte>, n: nat, pad: byte, codec: Codec)
    requires |b| <= n && codec.Decode(b).Ok?
    ensures codec.Decode(LjustBytes(b, n, pad)) == Ok(Ljust(codec.Decode(b).value, n)) <==>
            |b| == n || (pad in codec.decode && codec.decode[pad] == ' ')
  {
    var raw, text := LjustBytes(b, n, pad), Ljust(codec.Decode(b).value, n);
    codec.DecodeBytewise(b);
    codec.DecodeBytewise(raw);
    assert forall i :: 0 <= i < |b| ==> raw[i] == b[i];
    if |b| < n {
      assert raw[|b|] == pad && text[|b|] == ' ';
      if pad in codec.decode && codec.decode[pad] == ' ' {
        assert codec.Decode(raw).value == text;
      }
    }
  }

  /**
   * Verbatim bytes of a text column that decode are read as their text, padded with blanks, exactly when they fill the
   * field or the pad byte is the blank of the encoding.
   */
  lemma VerbatimText(b: seq<byte>, text: string, spec: ColumnSpec, py: Python)
    requires |b| <= spec.field.layout.length && IsText(spec.kind) && spec.codec.Decode(b) == Ok(text)
    ensures var expected := Expected(Some(SBytes(b)), spec, py);
            var read := ConvertText(Ljust(text, spec.field.layout.length), spec);
            && (|b| == spec.field.layout.length || PadIsBlank(spec) ==> expected == read)
            && (read.Ok? ==> (expected == read <==> |b| == spec.field.layout.length || PadIsBlank(spec)))
  {
    var n := spec.field.layout.length;
    ExpectedBytes(b, spec, py);
    DecodePadded(b, n, PadByte(spec), spec.codec);
    ReadsTell(LjustBytes(b, n, PadByte(spec)), Ljust(text, n), spec, py);
  }

  lemma ExpectedBytes(b: seq<byte>, spec: ColumnSpec, py: Python)
    ensures Expected(Some(SBytes(b)), spec, py) ==
            ConvertField(LjustBytes(b, spec.field.layout.length, PadByte(spec)), spec, py)
  {
  }

  /** Those that do not decode are rejected at the first byte without a character. */
  lemma VerbatimRejected(b: seq<byte>, spec: ColumnSpec, py: Python)
    requires |b| <= spec.field.layout.length && IsText(spec.kind) && spec.codec.Decode(b).Err?
    ensures Expected(Some(SBytes(b)), spec, py) == Err(CcsidUnmappable(spec.codec.Decode(b).error))
  {
    PaddedUnmapped(b, spec.field.layout.length, PadByte(spec), spec.codec);
    ReadsBytes(LjustBytes(b, spec.field.layout.length, PadByte(spec)), spec, py);
  }

  lemma PaddedUnmapped(b: seq<byte>, n: nat, pad: byte, codec: Codec)
    requires |b| <= n && codec.Decode(b).Err?
    ensures codec.Decode(LjustBytes(b, n, pad)) == Err(codec.Decode(b).error)
  {
    FirstUnmapped(b, pad, n - |b|, codec);
    if |b| == n { assert b + seq(0, _ => pad) == b; }
  }

  lemma ReadsBytes(raw: seq<byte>, spec: ColumnSpec, py: Python)
    requires IsText(spec.kind) && spec.codec.Decode(raw).Err?
    ensures ConvertField(raw, spec, py) == Err(CcsidUnmappable(spec.codec.Decode(raw).error))
  {
  }

  /** A text column reads bytes as a text that it accepts only when they decode to that text. */
  lemma ReadsTell(raw: seq<byte>, text: string, spec: ColumnSpec, py: Python)
    requires IsText(spec.kind)
    ensures spec.codec.Decode(raw) == Ok(text) ==> ConvertField(raw, spec, py) == ConvertText(text, spec)
    ensures ConvertText(text, spec).Ok? && spec.codec.Decode(raw) != Ok(text) ==>
              ConvertField(raw, spec, py) != ConvertText(text, spec)
  {
  }

  /** Bytes that fill their field are written as they are, whatever the column. */
  lemma VerbatimWritten(b: seq<byte>, spec: ColumnSpec, py: Python)
    requires |b| == spec.field.layout.length
    ensures EncodeField(Some(SBytes(b)), spec, py) == Ok(b)
    ensures Expected(Some(SBytes(b)), spec, py) == ConvertField(b, spec, py)
  {
  }

  // ---- missing values ----

  /** A missing number is a zero; missing text is blanks, which no date or timestamp column accepts. */
  lemma MissingValue(spec: ColumnSpec, py: Python)
    ensures spec.field.layout.isNumeric ==> Expected(None, spec, py) == Expected(Some(SInt(0)), spec, py)
    ensures !spec.field.layout.isNumeric ==>
              Expected(None, spec, py) == ReadText(seq(spec.field.layout.length, _ => ' '), spec, py)
    ensures !spec.field.layout.isNumeric && spec.kind == KDate8 ==> Expected(None, spec, py) == Err(DateInvalid)
    ensures !spec.field.layout.isNumeric && spec.kind == KTimestamp12 ==> Expected(None, spec, py) == Err(TimestampInvalid)
  {
    var blanks := seq(spec.field.layout.length, _ => ' ');
    assert Ljust("", spec.field.layout.length) == blanks;
    BlanksAreNoDate(blanks);
  }

  lemma BlanksAreNoDate(text: string)
    requires forall i :: 0 <= i < |text| ==> text[i] == ' '
    ensures ParseDate8(text).None? && ParseTimestamp12(text).None?
  {
  }
}
