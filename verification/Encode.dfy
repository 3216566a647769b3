/** The fixed-width record writer, `encode_record` (migration/job/ldm/convert.py). */
module Encode {
  import opened Bytes
  import opened Codecs
  import opened Convert
  import opened Copybook
  import opened Decimals
  import opened Digits
  import opened Packed
  import opened Results

  /** A source value keyed by its column; a missing one is the source's `None`. */
  datatype SourceValue =
    | SBytes(bytes: seq<byte>) | SText(text: string) | SInt(i: int) | SDec(d: Decimal) | STimestamp(text: string)

  datatype EncodeError = NotANumber | Overflow | DoesNotPack | Unencodable | WrongWidth

  /** `int(v or 0)`. */
  function AsInt(v: Option<SourceValue>, py: Python): Result<int, EncodeError> {
    match v
    case None => Ok(0)
    case Some(SInt(i)) => Ok(i)
    case Some(SDec(d)) => Ok(if d.neg then Neg(Whole(d)) else Whole(d))
    case Some(SText(s)) =>
      if s == "" then Ok(0)
      else (match IntOfText(s, py) case None => Err(NotANumber) case Some(i) => Ok(i))
    case _ => Err(NotANumber)
  }

  /** `Decimal(v or 0)`. */
  function AsDecimal(v: Option<SourceValue>, py: Python): Result<Decimal, EncodeError> {
    match v
    case None => Ok(Scaled(0, 0))
    case Some(SInt(i)) => Ok(Scaled(i, 0))
    case Some(SDec(d)) => Ok(if d.coeff == 0 then Scaled(0, 0) else d)
    case Some(SText(s)) =>
      if s == "" then Ok(Scaled(0, 0))
      else (match DecimalOfText(s, py) case None => Err(NotANumber) case Some(d) => Ok(d))
    case _ => Err(NotANumber)
  }

  /** `abs(d)`, which rounds to the precision. */
  function AbsRounded(d: Decimal): Decimal {
    var extra := NumDigits(d.coeff) - PRECISION;
    if extra <= 0 then AbsDecimal(d)
    else
      var c := RoundHalfEven(d.coeff, Pow10(extra));
      if NumDigits(c) > PRECISION then Decimal(false, c / 10, d.exp + extra + 1) else Decimal(false, c, d.exp + extra)
  }

  lemma RoundedBelow(n: nat, d: nat, m: nat)
    requires d > 0 && n < m * d
    ensures RoundHalfEven(n, d) <= m
  {
    var q := n / d;
    if q >= m { MulOrder(m, q, d); }
  }

  lemma MulOrder(m: nat, q: nat, d: nat)
    requires m <= q
    ensures m * d <= q * d
  {
    assert q * d == m * d + (q - m) * d;
  }

  /** A number that needs one digit more than its bound is the bound, and a tenth of it has the bound's digits. */
  lemma CarriedDigits(c: nat, w: nat)
    requires w >= 1 && c <= Pow10(w)
    ensures NumDigits(c) > w ==> c == Pow10(w) && c / 10 == Pow10(w - 1) && NumDigits(c / 10) == w && c == 10 * (c / 10)
  {
    NumDigitsBound(c, w);
    if NumDigits(c) > w {
      assert Pow10(w) == 10 * Pow10(w - 1);
      Pow10Monotone(w - 1, w);
      NumDigitsBound(c / 10, w);
      if w > 1 { NumDigitsBound(c / 10, w - 1); }
    }
  }

  /**
   * The magnitude of a number, at the precision: unchanged up to 64 digits, and otherwise the nearest number of 64 digits,
   * the even one in a tie, of which a final zero may be carried into the exponent.
   */
  lemma AbsRoundedExactly(d: Decimal)
    ensures !AbsRounded(d).neg && NumDigits(AbsRounded(d).coeff) <= 64
    ensures NumDigits(d.coeff) <= 64 ==> AbsRounded(d) == d.(neg := false)
    ensures NumDigits(d.coeff) > 64 ==>
              var extra, r := NumDigits(d.coeff) - 64, AbsRounded(d);
              && (r.exp == d.exp + extra || r.exp == d.exp + extra + 1)
              && Nearest(d.coeff, Pow10(extra), if r.exp == d.exp + extra then r.coeff else 10 * r.coeff)
  {
    if NumDigits(d.coeff) > 64 { RoundedTo(d, 64); }
  }

  lemma RoundedFits(n: nat, w: nat, extra: nat)
    requires w >= 1 && NumDigits(n) == w + extra
    ensures RoundHalfEven(n, Pow10(extra)) <= Pow10(w)
  {
    NumDigitsBound(n, w + extra);
    Pow10Add(w, extra);
    RoundedBelow(n, Pow10(extra), Pow10(w));
  }

  lemma RoundedTo(d: Decimal, w: nat)
    requires w == PRECISION && NumDigits(d.coeff) > w
    ensures var extra, r := NumDigits(d.coeff) - w, AbsRounded(d);
            && NumDigits(r.coeff) <= w && (r.exp == d.exp + extra || r.exp == d.exp + extra + 1)
            && Nearest(d.coeff, Pow10(extra), if r.exp == d.exp + extra then r.coeff else 10 * r.coeff)
  {
    var extra := NumDigits(d.coeff) - w;
    var c := RoundHalfEven(d.coeff, Pow10(extra));
    RoundedFits(d.coeff, w, extra);
    RoundHalfEvenNearest(d.coeff, Pow10(extra));
    CarriedDigits(c, w);
  }

  /** The digits of a display number before padding. */
  function DisplayDigits(d: Decimal, scale: nat): Result<string, EncodeError> {
    if scale == 0 then Ok(WithoutDots(FormatF(AbsRounded(d))))
    else
      match Quantize(d, scale)
      case Err(_) => Err(DoesNotPack)
      case Ok(q) => Ok(WithoutDots(FormatF(AbsDecimal(q))))
  }

  function EncodeText(text: string, codec: Codec): Result<seq<byte>, EncodeError> {
    match codec.Encode(text) case Err(_) => Err(Unencodable) case Ok(raw) => Ok(raw)
  }

  function EncodeNumber(v: Option<SourceValue>, spec: ColumnSpec, py: Python): Result<seq<byte>, EncodeError> {
    var f := spec.field;
    match f.usage
    case Comp =>
      var i :- AsInt(v, py);
      (match ToSigned(i, f.layout.length) case Err(_) => Err(Overflow) case Ok(raw) => Ok(raw))
    case Comp3 =>
      var d :- AsDecimal(v, py);
      (match PackComp3(d, f.layout.length, f.layout.scale) case Err(_) => Err(DoesNotPack) case Ok(raw) => Ok(raw))
    case Display =>
      var d :- AsDecimal(v, py);
      var digits :- DisplayDigits(d, f.layout.scale);
      EncodeText(RjustZero(digits, f.layout.length), spec.codec)
  }

  /** `str(v)` of a value in a text column. */
  function AsText(v: Option<SourceValue>, py: Python): string {
    match v
    case Some(SText(s)) => s
    case Some(STimestamp(s)) => s
    case Some(SInt(i)) => SignedText(i)
    case Some(SDec(d)) => py.decimalText(d)
    case _ => ""
  }

  /** The bytes of one column before the width check. */
  function FieldBytes(v: Option<SourceValue>, spec: ColumnSpec, py: Python): Result<seq<byte>, EncodeError> {
    var f := spec.field;
    if v.Some? && v.value.SBytes? then Ok(LjustBytes(v.value.bytes, f.layout.length, if spec.ebcdic then 0x40 else 0x20))
    else if f.layout.isNumeric then EncodeNumber(v, spec, py)
    else EncodeText(Ljust(AsText(v, py), f.layout.length), spec.codec)
  }

  function EncodeField(v: Option<SourceValue>, spec: ColumnSpec, py: Python): (r: Result<seq<byte>, EncodeError>)
    ensures r.Ok? ==> |r.value| == spec.field.layout.length
  {
    var raw :- FieldBytes(v, spec, py);
    if |raw| != spec.field.layout.length then Err(WrongWidth) else Ok(raw)
  }

  lemma EmptyIsMissing(spec: ColumnSpec, py: Python)
    requires spec.field.layout.isNumeric
    ensures EncodeField(Some(SText("")), spec, py) == EncodeField(None, spec, py)
    ensures EncodeField(None, spec, py) == EncodeField(Some(SInt(0)), spec, py)
  {
    assert AsInt(Some(SText("")), py) == AsInt(None, py) == AsInt(Some(SInt(0)), py);
    assert AsDecimal(Some(SText("")), py) == AsDecimal(None, py) == AsDecimal(Some(SInt(0)), py);
  }

  /**
   * In a numeric field an empty text counts as a missing value, which counts as zero, and the text of a number as the
   * number; a binary field refuses a number of more than 4300 digits.
   */
  lemma TextCountsAsNumber(text: string, spec: ColumnSpec, py: Python)
    requires spec.field.layout.isNumeric
    ensures EncodeField(Some(SText("")), spec, py) == EncodeField(None, spec, py) == EncodeField(Some(SInt(0)), spec, py)
    ensures PlainNumber(text) && |text| <= 4300 ==>
              EncodeField(Some(SText(text)), spec, py) == EncodeField(Some(SInt(Value(text))), spec, py)
    ensures PlainNumber(text) && |text| > 4300 && spec.field.usage == Comp ==>
              EncodeField(Some(SText(text)), spec, py) == Err(NotANumber)
  {
    EmptyIsMissing(spec, py);
    if PlainNumber(text) {
      var n := Value(text);
      assert AsInt(Some(SText(text)), py) == if |text| <= 4300 then Ok(n) else Err(NotANumber);
      assert AsDecimal(Some(SText(text)), py) == Ok(Scaled(n, 0)) == AsDecimal(Some(SInt(n)), py);
    }
  }

  function Get<V>(m: map<string, V>, name: string): Option<V> { if name in m then Some(m[name]) else None }

  /** `out[lo : lo + len(b)] = b`. */
  function Overwrite(out: seq<byte>, lo: nat, b: seq<byte>): seq<byte>
    requires lo + |b| <= |out|
  {
    out[..lo] + b + out[lo + |b|..]
  }

  ghost predicate FieldsWithin(specs: seq<ColumnSpec>, n: nat) {
    forall s :: s in specs ==> s.field.End() <= n
  }

  /** The encoding of one column at its place. */
  datatype Piece = Piece(field: Field, bytes: Result<seq<byte>, EncodeError>)

  ghost predicate Fits(p: Piece, n: nat) {
    p.field.End() <= n && (p.bytes.Ok? ==> |p.bytes.value| == p.field.layout.length)
  }

  ghost predicate AllFit(ps: seq<Piece>, n: nat) { forall i :: 0 <= i < |ps| ==> Fits(ps[i], n) }

  /** Blanks with the pieces written over them in order, or the first failure. */
  ghost function Overlay(ps: seq<Piece>, n: nat): (r: Result<seq<byte>, EncodeError>)
    requires AllFit(ps, n)
    ensures r.Ok? ==> |r.value| == n
  {
    if ps == [] then Ok(seq(n, _ => 0x20))
    else
      var p := ps[|ps| - 1];
      var out :- Overlay(ps[..|ps| - 1], n);
      var b :- p.bytes;
      assert Fits(p, n);
      Ok(Overwrite(out, p.field.offset, b))
  }

  ghost function Pieces(values: map<string, SourceValue>, specs: seq<ColumnSpec>, py: Python): (ps: seq<Piece>)
    ensures |ps| == |specs|
    ensures forall n :: FieldsWithin(specs, n) ==> AllFit(ps, n)
  {
    var ps := seq(|specs|, i requires 0 <= i < |specs| =>
      Piece(specs[i].field, EncodeField(Get(values, specs[i].name), specs[i], py)));
    assert forall i :: 0 <= i < |specs| ==> specs[i] in specs;
    ps
  }

  /** What `encode_record` returns. */
  ghost function Written(values: map<string, SourceValue>, specs: seq<ColumnSpec>, n: nat, py: Python)
    : (r: Result<seq<byte>, EncodeError>)
    requires FieldsWithin(specs, n)
    ensures r.Ok? ==> |r.value| == n
  {
    Overlay(Pieces(values, specs, py), n)
  }

  lemma {:induction false} WriteFailureStays(ps: seq<Piece>, k: nat, n: nat)
    requires AllFit(ps, n) && k <= |ps| && Overlay(ps[..k], n).Err?
    ensures Overlay(ps, n) == Overlay(ps[..k], n)
    decreases |ps| - k
  {
    if k == |ps| {
      assert ps[..k] == ps;
    } else {
      assert ps[..k + 1][..k] == ps[..k];
      WriteFailureStays(ps, k + 1, n);
    }
  }

  lemma OverlayNext(ps: seq<Piece>, k: nat, n: nat)
    requires AllFit(ps, n) && k < |ps| && Overlay(ps[..k], n).Ok?
    ensures Fits(ps[k], n)
    ensures Overlay(ps[..k + 1], n) ==
            match ps[k].bytes
            case Err(e) => Err(e)
            case Ok(b) => Ok(Overwrite(Overlay(ps[..k], n).value, ps[k].field.offset, b))
  {
    assert ps[..k + 1][..k] == ps[..k];
  }

  method OverwriteSlice(out: array<byte>, lo: nat, b: seq<byte>)
    requires lo + |b| <= out.Length
    modifies out
    ensures out[..] == Overwrite(old(out[..]), lo, b)
  {
    forall i | 0 <= i < |b| { out[lo + i] := b[i]; }
  }

  /** `encode_record`: every column overwrites its own slice of a blank buffer. */
  method EncodeRecord(values: map<string, SourceValue>, specs: seq<ColumnSpec>, recordLength: nat, py: Python)
    returns (r: Result<seq<byte>, EncodeError>)
    requires FieldsWithin(specs, recordLength)
    ensures r == Written(values, specs, recordLength, py)
  {
    var out := new byte[recordLength](_ => 0x20);
    assert out[..] == seq(recordLength, _ => 0x20);
    ghost var ps := Pieces(values, specs, py);
    for k := 0 to |specs|
      invariant Overlay(ps[..k], recordLength) == Ok(out[..])
    {
      var spec := specs[k];
      var encoded := EncodeField(Get(values, spec.name), spec, py);
      assert ps[k] == Piece(spec.field, encoded);
      OverlayNext(ps, k, recordLength);
      if encoded.Err? {
        WriteFailureStays(ps, k + 1, recordLength);
        return Err(encoded.error);
      }
      OverwriteSlice(out, spec.field.offset, encoded.value);
    }
    assert ps[..|specs|] == ps;
    return Ok(out[..]);
  }

  ghost predicate Apart(f: Field, g: Field) { f.End() <= g.offset || g.End() <= f.offset }

  /** No two columns share a byte. */
  ghost predicate Separate(specs: seq<ColumnSpec>) {
    forall i, j :: 0 <= i < j < |specs| ==> Apart(specs[i].field, specs[j].field)
  }

  /** Columns over different fields of one parsed copybook are separate and lie within its record. */
  lemma CopybookColumnsSeparate(fields: seq<Field>, total: nat, specs: seq<ColumnSpec>)
    requires Tiles(fields, total)
    requires forall s :: s in specs ==> s.field in fields
    requires forall i, j :: 0 <= i < j < |specs| ==> specs[i].field != specs[j].field
    ensures Separate(specs) && FieldsWithin(specs, total)
  {
    forall i, j | 0 <= i < j < |specs|
      ensures Apart(specs[i].field, specs[j].field)
    {
      assert specs[i] in specs && specs[j] in specs;
      var a :| 0 <= a < |fields| && fields[a] == specs[i].field;
      var b :| 0 <= b < |fields| && fields[b] == specs[j].field;
      assert Laid(fields, a) && Laid(fields, b);
      if a < b { FieldsInOrder(fields, a, b); } else { FieldsInOrder(fields, b, a); }
    }
    forall s | s in specs
      ensures s.field.End() <= total
    {
      var a :| 0 <= a < |fields| && fields[a] == s.field;
      FieldsInOrder(fields, a, |fields|);
    }
  }

  lemma OverwriteKeeps(out: seq<byte>, lo: nat, b: seq<byte>, f: Field)
    requires lo + |b| <= |out| && f.End() <= |out|
    ensures f.End() <= lo || lo + |b| <= f.offset ==> f.Slice(Overwrite(out, lo, b)) == f.Slice(out)
    ensures f.offset == lo && f.layout.length == |b| ==> f.Slice(Overwrite(out, lo, b)) == b
  {
    var w := Overwrite(out, lo, b);
    if f.End() <= lo || lo + |b| <= f.offset {
      assert w[f.offset..f.End()] == out[f.offset..f.End()];
    }
  }

  ghost predicate PiecesApart(ps: seq<Piece>) {
    forall i, j :: 0 <= i < j < |ps| ==> Apart(ps[i].field, ps[j].field)
  }

  lemma {:induction false} PiecesUndisturbed(ps: seq<Piece>, n: nat, i: nat)
    requires AllFit(ps, n) && PiecesApart(ps) && Overlay(ps, n).Ok? && i < |ps|
    ensures ps[i].bytes == Ok(ps[i].field.Slice(Overlay(ps, n).value))
  {
    var front, p := ps[..|ps| - 1], ps[|ps| - 1];
    assert Fits(p, n) && Fits(ps[i], n);
    OverwriteKeeps(Overlay(front, n).value, p.field.offset, p.bytes.value, ps[i].field);
    if i == |front| {
    } else {
      PiecesUndisturbed(front, n, i);
      assert Apart(ps[i].field, p.field);
    }
  }

  /** No column disturbs another: each slice of a written record holds that column's own encoding. */
  lemma ColumnsUndisturbed(values: map<string, SourceValue>, specs: seq<ColumnSpec>, n: nat, py: Python, i: nat)
    requires FieldsWithin(specs, n) && Separate(specs) && Written(values, specs, n, py).Ok? && i < |specs|
    ensures EncodeField(Get(values, specs[i].name), specs[i], py) ==
            Ok(specs[i].field.Slice(Written(values, specs, n, py).value))
  {
    PiecesUndisturbed(Pieces(values, specs, py), n, i);
  }

  /** Bytes that belong to no column stay blank. */
  lemma {:induction false} FillerBlank(ps: seq<Piece>, n: nat, p: nat)
    requires AllFit(ps, n) && Overlay(ps, n).Ok? && p < n
    requires forall i :: 0 <= i < |ps| ==> p < ps[i].field.offset || ps[i].field.End() <= p
    ensures Overlay(ps, n).value[p] == 0x20
  {
    if ps == [] {
    } else {
      assert Fits(ps[|ps| - 1], n);
      FillerBlank(ps[..|ps| - 1], n, p);
    }
  }
}
