/**
 * Packed decimal (COMP-3): the job's reader and writer (migration/job/ldm/convert.py) and the seed's
 * independent DECIMAL(31,8) writer (migration/source/seed/spec.py).
 */
module Packed {
  import opened Arith
  import opened Bytes
  import opened Decimals
  import opened Digits
  import opened Results

  datatype PackedError = EmptyField | BadDigit | BadSign(sign: nibble) | DoesNotFit | BadQuantize

  predicate DecimalNibbles(ns: seq<nibble>) {
    forall i :: 0 <= i < |ns| ==> ns[i] <= 9
  }

  function DigitText(ns: seq<nibble>): (s: string)
    requires DecimalNibbles(ns)
    ensures |s| == |ns| && AllDigits(s)
  {
    seq(|ns|, i requires 0 <= i < |ns| => DigitChar(ns[i]))
  }

  function TextNibbles(s: string): (ns: seq<nibble>)
    ensures |ns| == |s| && DecimalNibbles(ns)
  {
    seq(|s|, i requires 0 <= i < |s| => DigitOf(s[i]))
  }

  function SignOf(n: nibble): Result<bool, PackedError> {
    if n == 0xC || n == 0xF || n == 0xA || n == 0xE then Ok(false)
    else if n == 0xD || n == 0xB then Ok(true)
    else Err(BadSign(n))
  }

  /** What a packed field denotes. A scale beyond the field is cut off at its digits. */
  function Unpacked(raw: seq<byte>, scale: nat): Result<Decimal, PackedError> {
    var ns := Nibbles(raw);
    if ns == [] then Err(EmptyField)
    else
      var digits := ns[..|ns| - 1];
      if !DecimalNibbles(digits) then Err(BadDigit)
      else
        var neg :- SignOf(ns[|ns| - 1]);
        Ok(Decimal(neg, Value(DigitText(digits)), Neg(Min(scale, |digits|))))
  }

  /** The reader itself collects the nibbles of the field byte by byte. */
  method UnpackComp3(raw: seq<byte>, scale: nat) returns (r: Result<Decimal, PackedError>)
    ensures r == Unpacked(raw, scale)
  {
    var digits: seq<nibble> := [];
    for k := 0 to |raw|
      invariant digits == Nibbles(raw[..k])
    {
      digits := digits + [raw[k] / 16];
      digits := digits + [raw[k] % 16];
      assert raw[..k + 1] == raw[..k] + [raw[k]];
    }
    assert raw[..|raw|] == raw;
    if |digits| == 0 { return Err(EmptyField); }
    var sign := digits[|digits| - 1];
    digits := digits[..|digits| - 1];
    if exists i :: 0 <= i < |digits| && digits[i] > 9 { return Err(BadDigit); }
    var neg :- SignOf(sign);
    return Ok(Decimal(neg, Value(DigitText(digits)), Neg(Min(scale, |digits|))));
  }

  /** The digits and the sign nibble as bytes. */
  function PackDigits(ds: string, neg: bool): seq<byte>
    requires |ds| % 2 == 1
  {
    FromNibbles(TextNibbles(ds) + [if neg then 0xD else 0xC])
  }

  /** The writer once the value is rounded: format, drop the point, pad, append the sign. */
  function PackQuantized(q: Decimal, length: nat): Result<seq<byte>, PackedError> {
    var digits := WithoutDots(FormatF(AbsDecimal(q)));
    var total := 2 * length - 1;
    if |digits| > total then Err(DoesNotFit)
    else Ok(PackDigits(RjustZero(digits, total), IsNegative(q)))
  }

  function PackComp3(v: Decimal, length: nat, scale: nat): Result<seq<byte>, PackedError> {
    match Quantize(v, scale)
    case Err(_) => Err(BadQuantize)
    case Ok(q) => PackQuantized(q, length)
  }

  /** Digits a rounded coefficient takes: at least one stands before the decimal point. */
  function DigitsNeeded(coeff: nat, scale: nat): nat {
    Max(NumDigits(coeff), scale + 1)
  }

  predicate Packs(coeff: nat, length: nat, scale: nat) {
    NumDigits(coeff) <= PRECISION && DigitsNeeded(coeff, scale) <= 2 * length - 1
  }

  lemma PlainDigitsAtScale(neg: bool, c: nat, scale: nat)
    ensures PlainDigits(Decimal(neg, c, Neg(scale))) == Fixed(c, DigitsNeeded(c, scale))
    ensures c < Pow10(DigitsNeeded(c, scale))
  {
    NumDigitsBound(c, DigitsNeeded(c, scale));
  }

  lemma PackedDigits(neg: bool, c: nat, length: nat, scale: nat)
    ensures PackQuantized(Decimal(neg, c, Neg(scale)), length) ==
            if DigitsNeeded(c, scale) > 2 * length - 1 then Err(DoesNotFit)
            else Ok(PackDigits(Fixed(c, 2 * length - 1), neg && c > 0))
  {
    PlainDigitsOfFormat(Decimal(neg, c, Neg(scale)));
    PlainDigitsAtScale(neg, c, scale);
    RjustFixed(c, DigitsNeeded(c, scale), 2 * length - 1);
  }

  lemma UnpackedDigits(ds: string, neg: bool, scale: nat)
    requires |ds| % 2 == 1 && AllDigits(ds)
    ensures Unpacked(PackDigits(ds, neg), scale) == Ok(Decimal(neg, Value(ds), Neg(Min(scale, |ds|))))
  {
    var ns := TextNibbles(ds) + [if neg then 0xD else 0xC];
    NibblesOfBytes(ns);
    assert ns[..|ns| - 1] == TextNibbles(ds);
    assert DigitText(TextNibbles(ds)) == ds;
  }

  lemma FixedIsRead(c: nat, neg: bool, total: nat, scale: nat)
    requires total % 2 == 1 && NumDigits(c) <= total && scale <= total
    ensures Unpacked(PackDigits(Fixed(c, total), neg), scale) == Ok(Decimal(neg, c, Neg(scale)))
  {
    var ds := Fixed(c, total);
    NumDigitsBound(c, total);
    ValueOfFixed(c, total);
    UnpackedDigits(ds, neg, scale);
  }

  lemma ReadBack(neg: bool, c: nat, length: nat, scale: nat)
    requires DigitsNeeded(c, scale) <= 2 * length - 1
    ensures var raw := PackDigits(Fixed(c, 2 * length - 1), neg);
            |raw| == length && Unpacked(raw, scale) == Ok(Decimal(neg, c, Neg(scale)))
  {
    var total := 2 * length - 1;
    DivUnique(total, 2, length - 1, 1);
    FixedIsRead(c, neg, total, scale);
  }

  lemma ReadAfterRounding(neg: bool, c: nat, length: nat, scale: nat)
    ensures var r := PackQuantized(Decimal(neg, c, Neg(scale)), length);
            && (r.Ok? <==> DigitsNeeded(c, scale) <= 2 * length - 1)
            && (r.Ok? ==> |r.value| == length
                          && Unpacked(r.value, scale) == Ok(Decimal(neg && c > 0, c, Neg(scale))))
  {
    PackedDigits(neg, c, length, scale);
    if DigitsNeeded(c, scale) <= 2 * length - 1 { ReadBack(neg && c > 0, c, length, scale); }
  }

  /**
   * Unpack after pack: a value is written exactly when its rounded digits fit the field and the
   * precision, and what is read back is the value rounded to the scale (a rounded-away minus is lost).
   */
  lemma UnpackAfterPack(v: Decimal, length: nat, scale: nat)
    ensures var c, r := RoundedCoeff(v, scale), PackComp3(v, length, scale);
            && (r.Ok? <==> Packs(c, length, scale))
            && (r.Ok? ==> |r.value| == length
                          && Unpacked(r.value, scale) == Ok(Decimal(v.neg && c > 0, c, Neg(scale))))
  {
    ReadAfterRounding(v.neg, RoundedCoeff(v, scale), length, scale);
  }

  /** The same number with the preferred sign codes: D for a negative value, C for any other. */
  function Normalized(raw: seq<byte>, neg: bool): seq<byte>
    requires raw != []
  {
    raw[|raw| - 1 := raw[|raw| - 1] / 16 * 16 + if neg then 0xD else 0xC]
  }

  lemma RepackedNibbles(raw: seq<byte>, neg: bool)
    requires raw != [] && DecimalNibbles(Nibbles(raw)[..2 * |raw| - 1])
    ensures PackDigits(DigitText(Nibbles(raw)[..2 * |raw| - 1]), neg) == Normalized(raw, neg)
  {
    var ns := Nibbles(raw);
    var sign: nibble := if neg then 0xD else 0xC;
    assert TextNibbles(DigitText(ns[..|ns| - 1])) + [sign] == ns[|ns| - 1 := sign];
  }

  lemma Repacked(raw: seq<byte>, neg: bool, c: nat, scale: nat)
    requires raw != [] && DecimalNibbles(Nibbles(raw)[..2 * |raw| - 1])
    requires c == Value(DigitText(Nibbles(raw)[..2 * |raw| - 1]))
    ensures PackQuantized(Decimal(neg, c, Neg(scale)), |raw|) ==
            if scale >= 2 * |raw| - 1 then Err(DoesNotFit)
            else Ok(Normalized(raw, neg && c > 0))
  {
    var ds := DigitText(Nibbles(raw)[..2 * |raw| - 1]);
    FixedOfValue(ds);
    NumDigitsBound(c, |ds|);
    PackedDigits(neg, c, |raw|, scale);
    RepackedNibbles(raw, neg && c > 0);
  }

  /** A scale that leaves no integer digit never fits. */
  lemma NoIntegerDigit(q: Decimal, length: nat, scale: nat)
    requires q.exp == Neg(scale) && scale >= 2 * length - 1
    ensures PackQuantized(q, length).Err?
  {
    PackedDigits(q.neg, q.coeff, length, scale);
  }

  /**
   * Pack after unpack: every readable field is written back unchanged up to the sign code, and it can be
   * written back exactly when its scale leaves an integer digit and its digits are within the precision.
   */
  lemma PackAfterUnpack(raw: seq<byte>, scale: nat)
    requires Unpacked(raw, scale).Ok?
    ensures var v := Unpacked(raw, scale).value;
            var r := PackComp3(v, |raw|, scale);
            && (r.Ok? <==> NumDigits(v.coeff) <= PRECISION && scale < 2 * |raw| - 1)
            && (r.Ok? ==> r.value == Normalized(raw, v.neg && v.coeff > 0))
  {
    var v := Unpacked(raw, scale).value;
    if scale < 2 * |raw| - 1 {
      RoundedCoeffAtScale(v, scale);
      Repacked(raw, v.neg, v.coeff, scale);
    } else {
      match Quantize(v, scale)
      case Err(_) =>
      case Ok(q) => NoIntegerDigit(q, |raw|, scale);
    }
  }

  function HexValue(c: char): Option<nibble> {
    if IsDigit(c) then Some(DigitOf(c))
    else if 'A' <= c <= 'F' then Some((c - 'A') as int + 10)
    else None
  }

  /** `bytes.fromhex(text)` for an even number of upper-case hexadecimal digits. */
  function FromHex(text: string): Option<seq<byte>> {
    if |text| % 2 == 0 && forall i :: 0 <= i < |text| ==> HexValue(text[i]).Some? then
      Some(FromNibbles(seq(|text|, i requires 0 <= i < |text| && HexValue(text[i]).Some? => HexValue(text[i]).value)))
    else None
  }

  /** DECIMAL(31,8), the packed type of both charge columns. */
  const DECIMAL_WIDTH := 31
  const DECIMAL_SCALE := 8

  /** The seed's own DECIMAL(31,8) writer over an integer scaled by 10^8. */
  function Comp3Of31By8(scaled: int): Option<seq<byte>> {
    var digits := Padded(Abs(scaled), DECIMAL_WIDTH);
    if |digits| != DECIMAL_WIDTH then None else FromHex(digits + if scaled < 0 then "D" else "C")
  }

  lemma HexOfDigits(digits: string, neg: bool)
    requires AllDigits(digits) && |digits| % 2 == 1
    ensures FromHex(digits + if neg then "D" else "C") == Some(PackDigits(digits, neg))
  {
    var text := digits + if neg then "D" else "C";
    var ns := TextNibbles(digits) + [if neg then 0xD else 0xC];
    forall i | 0 <= i < |text|
      ensures HexValue(text[i]) == Some(ns[i])
    {
      assert i < |digits| ==> text[i] == digits[i];
    }
    assert seq(|text|, i requires 0 <= i < |text| && HexValue(text[i]).Some? => HexValue(text[i]).value) == ns;
  }

  lemma Comp3Digits(scaled: int)
    ensures Comp3Of31By8(scaled) ==
            if Abs(scaled) < Pow10(DECIMAL_WIDTH)
            then Some(PackDigits(Fixed(Abs(scaled), DECIMAL_WIDTH), scaled < 0)) else None
  {
    ValueOfPadded(Abs(scaled), DECIMAL_WIDTH);
    NumDigitsBound(Abs(scaled), DECIMAL_WIDTH);
    if Abs(scaled) < Pow10(DECIMAL_WIDTH) { HexOfDigits(Fixed(Abs(scaled), DECIMAL_WIDTH), scaled < 0); }
  }

  /** Both writers emit the same sixteen bytes for every DECIMAL(31,8) value and refuse the same others. */
  lemma WritersAgree(scaled: int)
    ensures Comp3Of31By8(scaled).Some? <==> Abs(scaled) < Pow10(DECIMAL_WIDTH)
    ensures Comp3Of31By8(scaled).Some? <==> PackComp3(Scaled(scaled, DECIMAL_SCALE), 16, DECIMAL_SCALE).Ok?
    ensures Comp3Of31By8(scaled).Some? ==>
              PackComp3(Scaled(scaled, DECIMAL_SCALE), 16, DECIMAL_SCALE) == Ok(Comp3Of31By8(scaled).value)
  {
    var v := Scaled(scaled, DECIMAL_SCALE);
    Comp3Digits(scaled);
    PackedDigits(v.neg, v.coeff, 16, DECIMAL_SCALE);
    RoundedCoeffAtScale(v, DECIMAL_SCALE);
    NumDigitsBound(v.coeff, DECIMAL_WIDTH);
  }

  /** The seed's text of a value scaled by 10^8. */
  function Decimal8(scaled: int): string {
    var p := Pow10(DECIMAL_SCALE);
    (if scaled < 0 then "-" else "") + (Str(Abs(scaled) / p) + ("." + Padded(Abs(scaled) % p, DECIMAL_SCALE)))
  }

  /** It is the `f` format of the same decimal. */
  lemma Decimal8IsFormat(scaled: int)
    ensures Decimal8(scaled) == FormatF(Scaled(scaled, DECIMAL_SCALE))
  {
    var p := Pow10(DECIMAL_SCALE);
    var hi, lo := Abs(scaled) / p, Abs(scaled) % p;
    assert Abs(scaled) == hi * p + lo;
    NumDigitsBound(lo, DECIMAL_SCALE);
    FormatOfParts(scaled < 0, hi, lo, DECIMAL_SCALE);
  }
}
