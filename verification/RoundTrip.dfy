/** Reading back what the record writer wrote (migration/job/ldm/convert.py). */
module RoundTrip {
  import opened Arith
  import opened Bytes
  import Calendar
  import opened Codecs
  import opened Convert
  import opened Copybook
  import opened Decimals
  import opened Digits
  import opened Encode
  import opened Packed
  import opened Results
  import opened Texts

  // ---- what a written field holds ----

  /**
   * What is in a field, apart from its byte format: verbatim bytes, text, or the integer whose digits stand in the field,
   * wherever its decimal point is.
   */
  datatype Held = HeldBytes(raw: seq<byte>) | HeldText(text: string) | HeldNumber(i: int)

  function Signed(neg: bool, c: nat): (i: int)
    ensures Abs(i) == c && (i < 0 <==> neg && c > 0)
  {
    if neg then Neg(c) else c
  }

  /** The whole number that the digits of the plain notation make, the decimal point left out. */
  function PlainNumeral(d: Decimal): nat { if d.exp > 0 then d.coeff * Pow10(d.exp) else d.coeff }

  /** The number that a display field shows: rounded to its scale, but at scale 0 with every digit of its plain notation. */
  function ShownNumber(d: Decimal, scale: nat): nat {
    if scale == 0 then PlainNumeral(AbsRounded(d)) else RoundedCoeff(d, scale)
  }

  /** The integer that a number leaves in its field: binary fields cut the fraction off, packed ones round. */
  function HeldInteger(v: Option<SourceValue>, f: Field, py: Python): Option<int> {
    if f.usage == Comp then
      match AsInt(v, py) case Err(_) => None case Ok(i) => Some(i)
    else
      match AsDecimal(v, py)
      case Err(_) => None
      case Ok(d) =>
        Some(if f.usage == Comp3 then Signed(d.neg, RoundedCoeff(d, f.layout.scale)) else ShownNumber(d, f.layout.scale))
  }

  function PadByte(spec: ColumnSpec): byte { if spec.ebcdic then 0x40 else 0x20 }

  /** What writing a value, or a missing one, leaves in its field; nothing for a text that is no number. */
  function Holding(v: Option<SourceValue>, spec: ColumnSpec, py: Python): Option<Held> {
    var f := spec.field;
    if v.Some? && v.value.SBytes? then Some(HeldBytes(LjustBytes(v.value.bytes, f.layout.length, PadByte(spec))))
    else if !f.layout.isNumeric then Some(HeldText(Ljust(AsText(v, py), f.layout.length)))
    else match HeldInteger(v, f, py) case None => None case Some(i) => Some(HeldNumber(i))
  }

  /** The bytes of an integer in a number field. */
  function NumberBytes(i: int, spec: ColumnSpec): seq<byte> {
    var n := spec.field.layout.length;
    match spec.field.usage
    case Comp => (match ToSigned(i, n) case Err(_) => [] case Ok(raw) => raw)
    case Comp3 => if n == 0 then [] else PackDigits(Fixed(Abs(i), 2 * n - 1), i < 0)
    case Display => (match spec.codec.Encode(Fixed(Abs(i), n)) case Err(_) => [] case Ok(raw) => raw)
  }

  /** What a column makes of text in its field. */
  function ReadText(text: string, spec: ColumnSpec, py: Python): Result<(Cell, Cell), Rule> {
    match spec.kind
    case KBinary =>
      (match spec.codec.Encode(text) case Err(_) => Err(CcsidUnmappable(0)) case Ok(raw) => Ok((VBytes(raw), VBytes(raw))))
    case KInt => (match IntOfText(text, py) case None => Err(NumericInvalid) case Some(i) => ConvertInt(i, spec))
    case KDecimal =>
      (match ShownDecimal(text, spec.field.layout.scale, py)
       case None => Err(NumericInvalid)
       case Some(d) => ConvertDecimal(d, spec))
    case KChar | KDate8 | KTimestamp12 => ConvertText(text, spec)
  }

  /**
   * What a column makes of an integer in its field: an integer column takes it as it stands, a decimal column puts the
   * point where the scale of the field says; other columns see its bytes.
   */
  function ReadNumber(i: int, spec: ColumnSpec, py: Python): Result<(Cell, Cell), Rule> {
    match spec.kind
    case KInt =>
      if spec.field.usage == Display && spec.field.layout.length > INT_MAX_STR_DIGITS then Err(NumericInvalid)
      else ConvertInt(i, spec)
    case KDecimal => ConvertDecimal(Scaled(i, spec.field.layout.scale), spec)
    case KBinary | KChar | KDate8 | KTimestamp12 => ConvertField(NumberBytes(i, spec), spec, py)
  }

  function ReadHeld(h: Held, spec: ColumnSpec, py: Python): Result<(Cell, Cell), Rule> {
    match h
    case HeldBytes(raw) => ConvertField(raw, spec, py)
    case HeldText(text) => ReadText(text, spec, py)
    case HeldNumber(i) => ReadNumber(i, spec, py)
  }

  /** What must come back for a value, or a missing one: the cells of the column, or the rule that rejects it. */
  function Expected(v: Option<SourceValue>, spec: ColumnSpec, py: Python): Result<(Cell, Cell), Rule> {
    match Holding(v, spec, py)
    case None => Err(NumericInvalid)
    case Some(h) => ReadHeld(h, spec, py)
  }

  // ---- text fields ----

  lemma TextRoundTrip(text: string, spec: ColumnSpec, py: Python)
    requires spec.codec.Valid() && spec.field.usage == Display && spec.codec.Encode(text).Ok?
    ensures ConvertField(spec.codec.Encode(text).value, spec, py) == ReadText(text, spec, py)
  {
    spec.codec.DecodeOfEncode(text);
  }

  lemma TextFieldRoundTrip(v: Option<SourceValue>, spec: ColumnSpec, py: Python)
    requires spec.codec.Valid() && spec.field.usage == Display && !spec.field.layout.isNumeric && !IsBytes(v)
    requires EncodeField(v, spec, py).Ok?
    ensures ConvertField(EncodeField(v, spec, py).value, spec, py) == Expected(v, spec, py)
  {
    TextRoundTrip(Ljust(AsText(v, py), spec.field.layout.length), spec, py);
  }

  // ---- display numbers ----

  /** How many digits the writer makes before it pads. */
  function ShownWidth(d: Decimal, scale: nat): nat {
    if scale > 0 then DigitsNeeded(RoundedCoeff(d, scale), scale)
    else
      var q := AbsRounded(d);
      if q.exp > 0 then NumDigits(q.coeff * Pow10(q.exp)) else Max(NumDigits(q.coeff), 1 - q.exp)
  }

  lemma PlainNumeralDigits(d: Decimal)
    ensures var k := if d.exp > 0 then NumDigits(d.coeff * Pow10(d.exp)) else Max(NumDigits(d.coeff), 1 - d.exp);
            PlainDigits(d) == Fixed(PlainNumeral(d), k) && PlainNumeral(d) < Pow10(k)
  {
    if d.exp > 0 {
      NumDigitsBound(d.coeff * Pow10(d.exp), NumDigits(d.coeff * Pow10(d.exp)));
    } else {
      NumDigitsBound(d.coeff, Max(NumDigits(d.coeff), 1 - d.exp));
    }
  }

  lemma ShownNumberFits(d: Decimal, scale: nat)
    ensures ShownNumber(d, scale) < Pow10(ShownWidth(d, scale)) && scale < ShownWidth(d, scale)
  {
    if scale == 0 {
      PlainNumeralDigits(AbsRounded(d));
    } else {
      PlainDigitsAtScale(d.neg, RoundedCoeff(d, scale), scale);
    }
  }

  /** The digits of a display number, written out. */
  lemma DisplayDigitsAre(d: Decimal, scale: nat)
    ensures DisplayDigits(d, scale) ==
            if scale > 0 && NumDigits(RoundedCoeff(d, scale)) > PRECISION then Err(DoesNotPack)
            else Ok(Fixed(ShownNumber(d, scale), ShownWidth(d, scale)))
  {
    if scale == 0 {
      var q := AbsRounded(d);
      assert AbsDecimal(q) == q;
      PlainDigitsOfFormat(q);
      PlainNumeralDigits(q);
    } else {
      var c := RoundedCoeff(d, scale);
      PlainDigitsOfFormat(Decimal(d.neg, c, Neg(scale)));
      PlainDigitsAtScale(d.neg, c, scale);
    }
  }

  lemma PartsOfDigits(s: string, scale: nat, py: Python)
    requires AllDigits(s) && scale < |s|
    ensures ShownDecimal(s, scale, py) == Some(Decimal(false, Value(s), Neg(scale)))
  {
    assert s[..|s| - scale] + s[|s| - scale..] == s;
  }

  /** Digits that stand in a display field are read as the number they show. */
  lemma DigitsRead(i: nat, raw: seq<byte>, spec: ColumnSpec, py: Python)
    requires spec.codec.Valid() && spec.field.usage == Display
    requires i < Pow10(spec.field.layout.length) && spec.field.layout.scale < spec.field.layout.length
    requires spec.codec.Encode(Fixed(i, spec.field.layout.length)) == Ok(raw)
    ensures ConvertField(raw, spec, py) == ReadNumber(i, spec, py)
  {
    var l := spec.field.layout;
    spec.codec.DecodeOfEncode(Fixed(i, l.length));
    DecimalShown(i, l.length, l.scale, py);
    IntegerShown(i, l.length, py);
    if spec.kind == KInt || spec.kind == KDecimal {
      ShownCells(raw, Fixed(i, l.length), i, spec, py);
    } else {
      assert NumberBytes(i, spec) == raw;
    }
  }

  lemma ShownCells(raw: seq<byte>, s: string, i: nat, spec: ColumnSpec, py: Python)
    requires spec.field.usage == Display && spec.codec.Decode(raw) == Ok(s)
    requires IntOfText(s, py) == if spec.field.layout.length <= INT_MAX_STR_DIGITS then Some(i) else None
    requires ShownDecimal(s, spec.field.layout.scale, py) == Some(Scaled(i, spec.field.layout.scale))
    requires spec.kind == KInt || spec.kind == KDecimal
    ensures ConvertField(raw, spec, py) == ReadNumber(i, spec, py)
  {
  }

  lemma DecimalShown(i: nat, length: nat, scale: nat, py: Python)
    requires i < Pow10(length) && scale < length
    ensures ShownDecimal(Fixed(i, length), scale, py) == Some(Scaled(i, scale))
  {
    ValueOfFixed(i, length);
    PartsOfDigits(Fixed(i, length), scale, py);
  }

  lemma IntegerShown(i: nat, length: nat, py: Python)
    requires i < Pow10(length) && length > 0
    ensures IntOfText(Fixed(i, length), py) == if length <= INT_MAX_STR_DIGITS then Some(i) else None
  {
    ValueOfFixed(i, length);
  }

  lemma JustifiedDigits(d: Decimal, scale: nat, length: nat)
    ensures RjustZero(Fixed(ShownNumber(d, scale), ShownWidth(d, scale)), length) ==
            Fixed(ShownNumber(d, scale), Max(ShownWidth(d, scale), length))
  {
    ShownNumberFits(d, scale);
    RjustFixed(ShownNumber(d, scale), ShownWidth(d, scale), length);
  }

  lemma DigitsEncode(text: string, length: nat, codec: Codec)
    ensures (EncodeText(text, codec).Ok? && |EncodeText(text, codec).value| == length) <==>
            |text| == length && Encodable(text, codec)
  {
    codec.EncodeCharwise(text);
  }

  /** A display number is written exactly when its digits fit, and then as those digits. */
  lemma DisplayWritten(d: Decimal, v: Option<SourceValue>, spec: ColumnSpec, py: Python)
    requires spec.field.usage == Display && spec.field.layout.isNumeric && !IsBytes(v) && AsDecimal(v, py) == Ok(d)
    ensures var l := spec.field.layout;
            EncodeField(v, spec, py).Ok? <==> ShownFits(d, l.scale, l.length, spec.codec)
    ensures var l := spec.field.layout;
            EncodeField(v, spec, py).Ok? ==>
              && ShownNumber(d, l.scale) < Pow10(l.length) && l.scale < l.length
              && spec.codec.Encode(Fixed(ShownNumber(d, l.scale), l.length)) == Ok(EncodeField(v, spec, py).value)
  {
    var l := spec.field.layout;
    DisplayDigitsAre(d, l.scale);
    JustifiedDigits(d, l.scale, l.length);
    ShownDigitsFit(d, l.scale, l.length, spec.codec);
    DisplayBytes(d, v, spec, py);
  }

  /** Digits that are padded to the field, and how many numbers it has room for. */
  lemma ShownDigitsFit(d: Decimal, scale: nat, length: nat, codec: Codec)
    ensures var text := Fixed(ShownNumber(d, scale), Max(ShownWidth(d, scale), length));
            && |text| == Max(ShownWidth(d, scale), length)
            && ((EncodeText(text, codec).Ok? && |EncodeText(text, codec).value| == length) <==>
                  ShownWidth(d, scale) <= length && Encodable(Fixed(ShownNumber(d, scale), length), codec))
    ensures ShownWidth(d, scale) <= length ==> ShownNumber(d, scale) < Pow10(length) && scale < length
  {
    ShownNumberFits(d, scale);
    DigitsEncode(Fixed(ShownNumber(d, scale), Max(ShownWidth(d, scale), length)), length, codec);
    if ShownWidth(d, scale) <= length { Pow10Monotone(ShownWidth(d, scale), length); }
  }

  lemma DisplayBytes(d: Decimal, v: Option<SourceValue>, spec: ColumnSpec, py: Python)
    requires spec.field.usage == Display && spec.field.layout.isNumeric && !IsBytes(v) && AsDecimal(v, py) == Ok(d)
    ensures var l := spec.field.layout;
            var ds := DisplayDigits(d, l.scale);
            FieldBytes(v, spec, py) ==
            if ds.Err? then Err(ds.error) else EncodeText(RjustZero(ds.value, l.length), spec.codec)
  {
  }

  predicate IsBytes(v: Option<SourceValue>) { v.Some? && v.value.SBytes? }

  lemma DisplayRoundTrip(v: Option<SourceValue>, spec: ColumnSpec, py: Python)
    requires spec.field.usage == Display && spec.field.layout.isNumeric && !IsBytes(v)
    requires spec.codec.Valid() && EncodeField(v, spec, py).Ok?
    ensures ConvertField(EncodeField(v, spec, py).value, spec, py) == Expected(v, spec, py)
  {
    var d := AsDecimal(v, py).value;
    DisplayWritten(d, v, spec, py);
    DigitsRead(ShownNumber(d, spec.field.layout.scale), EncodeField(v, spec, py).value, spec, py);
  }

  // ---- packed and binary numbers ----

  /** The bytes of a packed number. */
  lemma PackedIs(d: Decimal, length: nat, scale: nat)
    requires PackComp3(d, length, scale).Ok?
    ensures var c := RoundedCoeff(d, scale);
            && length > 0 && DigitsNeeded(c, scale) <= 2 * length - 1 && (2 * length - 1) % 2 == 1
            && PackComp3(d, length, scale).value == PackDigits(Fixed(c, 2 * length - 1), d.neg && c > 0)
  {
    PackedDigits(d.neg, RoundedCoeff(d, scale), length, scale);
    DivUnique(2 * length - 1, 2, length - 1, 1);
  }

  /** They are read as the same digits at the scale of the field and at scale zero. */
  lemma PackedHolds(d: Decimal, length: nat, scale: nat)
    requires PackComp3(d, length, scale).Ok?
    ensures var i, raw := Signed(d.neg, RoundedCoeff(d, scale)), PackComp3(d, length, scale).value;
            && Unpacked(raw, scale) == Ok(Scaled(i, scale)) && Unpacked(raw, 0) == Ok(Scaled(i, 0))
  {
    var c := RoundedCoeff(d, scale);
    PackedIs(d, length, scale);
    FixedIsRead(c, d.neg && c > 0, 2 * length - 1, scale);
    FixedIsRead(c, d.neg && c > 0, 2 * length - 1, 0);
  }

  lemma PackedBytes(v: Option<SourceValue>, spec: ColumnSpec, py: Python)
    requires spec.field.usage == Comp3 && spec.field.layout.isNumeric && !IsBytes(v) && EncodeField(v, spec, py).Ok?
    ensures AsDecimal(v, py).Ok?
    ensures var l := spec.field.layout;
            PackComp3(AsDecimal(v, py).value, l.length, l.scale) == Ok(EncodeField(v, spec, py).value)
  {
  }

  /** The bytes are the packed digits of the integer that the field holds. */
  lemma PackedDigitsHeld(v: Option<SourceValue>, d: Decimal, raw: seq<byte>, spec: ColumnSpec, py: Python)
    requires spec.field.usage == Comp3 && spec.field.layout.length > 0 && AsDecimal(v, py) == Ok(d)
    requires (2 * spec.field.layout.length - 1) % 2 == 1
    requires var c := RoundedCoeff(d, spec.field.layout.scale);
             raw == PackDigits(Fixed(c, 2 * spec.field.layout.length - 1), d.neg && c > 0)
    ensures HeldInteger(v, spec.field, py).Some?
    ensures raw == NumberBytes(HeldInteger(v, spec.field, py).value, spec)
  {
    PackedInteger(v, d, spec.field, py);
    PackedNumber(d.neg, RoundedCoeff(d, spec.field.layout.scale), spec);
  }

  lemma PackedCells(raw: seq<byte>, i: int, spec: ColumnSpec, py: Python)
    requires spec.field.usage == Comp3 && Unpacked(raw, 0) == Ok(Scaled(i, 0))
    requires Unpacked(raw, spec.field.layout.scale) == Ok(Scaled(i, spec.field.layout.scale))
    requires spec.kind == KInt || spec.kind == KDecimal
    ensures ConvertField(raw, spec, py) == ReadNumber(i, spec, py)
  {
  }

  lemma PackedNumber(neg: bool, c: nat, spec: ColumnSpec)
    requires spec.field.usage == Comp3 && spec.field.layout.length > 0
    ensures var n := 2 * spec.field.layout.length - 1;
            n % 2 == 1 && NumberBytes(Signed(neg, c), spec) == PackDigits(Fixed(c, n), neg && c > 0)
  {
    DivUnique(2 * spec.field.layout.length - 1, 2, spec.field.layout.length - 1, 1);
  }

  lemma PackedInteger(v: Option<SourceValue>, d: Decimal, f: Field, py: Python)
    requires f.usage == Comp3 && AsDecimal(v, py) == Ok(d)
    ensures HeldInteger(v, f, py) == Some(Signed(d.neg, RoundedCoeff(d, f.layout.scale)))
  {
  }

  /** A number field reads the integer that was left in it. */
  lemma ExpectedNumber(v: Option<SourceValue>, i: int, spec: ColumnSpec, py: Python)
    requires spec.field.layout.isNumeric && !IsBytes(v) && HeldInteger(v, spec.field, py) == Some(i)
    ensures Expected(v, spec, py) == ReadNumber(i, spec, py)
  {
  }

  lemma PackedIsWritten(v: Option<SourceValue>, spec: ColumnSpec, py: Python)
    requires spec.field.usage == Comp3 && spec.field.layout.isNumeric && !IsBytes(v) && EncodeField(v, spec, py).Ok?
    ensures HeldInteger(v, spec.field, py).Some?
    ensures EncodeField(v, spec, py).value == NumberBytes(HeldInteger(v, spec.field, py).value, spec)
  {
    PackedBytes(v, spec, py);
    var l, d := spec.field.layout, AsDecimal(v, py).value;
    PackedIs(d, l.length, l.scale);
    PackedDigitsHeld(v, d, PackComp3(d, l.length, l.scale).value, spec, py);
  }

  lemma PackedRoundTrip(v: Option<SourceValue>, spec: ColumnSpec, py: Python)
    requires spec.field.usage == Comp3 && spec.field.layout.isNumeric && !IsBytes(v) && EncodeField(v, spec, py).Ok?
    ensures ConvertField(EncodeField(v, spec, py).value, spec, py) == Expected(v, spec, py)
  {
    var l := spec.field.layout;
    PackedIsWritten(v, spec, py);
    var i, raw := HeldInteger(v, spec.field, py).value, EncodeField(v, spec, py).value;
    ExpectedNumber(v, i, spec, py);
    if spec.kind == KInt || spec.kind == KDecimal {
      PackedBytes(v, spec, py);
      PackedHolds(AsDecimal(v, py).value, l.length, l.scale);
      PackedInteger(v, AsDecimal(v, py).value, spec.field, py);
      PackedCells(raw, i, spec, py);
    }
  }

  lemma CompRoundTrip(v: Option<SourceValue>, spec: ColumnSpec, py: Python)
    requires spec.field.usage == Comp && spec.field.layout.isNumeric && !IsBytes(v) && EncodeField(v, spec, py).Ok?
    ensures ConvertField(EncodeField(v, spec, py).value, spec, py) == Expected(v, spec, py)
  {
    FromSignedOfToSigned(AsInt(v, py).value, spec.field.layout.length);
  }

  /**
   * Field round trip, for every value, every missing value and every column: what is written is read back as the
   * reference says, or rejected by the rule that it names.
   */
  lemma FieldRoundTrip(v: Option<SourceValue>, spec: ColumnSpec, py: Python)
    requires spec.codec.Valid() && WellFormed(spec.field) && EncodeField(v, spec, py).Ok?
    ensures ConvertField(EncodeField(v, spec, py).value, spec, py) == Expected(v, spec, py)
  {
    LayoutHoldsDigits(spec.field.pic, spec.field.usage);
    if IsBytes(v) {
    } else if !spec.field.layout.isNumeric {
      TextFieldRoundTrip(v, spec, py);
    } else {
      match spec.field.usage
      case Comp => CompRoundTrip(v, spec, py);
      case Comp3 => PackedRoundTrip(v, spec, py);
      case Display => DisplayRoundTrip(v, spec, py);
    }
  }

  // ---- which values can be written ----

  /** Every character has a byte. */
  predicate Encodable(text: string, codec: Codec) { forall i :: 0 <= i < |text| ==> text[i] in codec.encode }

  /** The digits of a display number fit its field and have bytes. */
  predicate ShownFits(d: Decimal, scale: nat, length: nat, codec: Codec) {
    && (scale > 0 ==> NumDigits(RoundedCoeff(d, scale)) <= PRECISION) && ShownWidth(d, scale) <= length
    && Encodable(Fixed(ShownNumber(d, scale), length), codec)
  }

  /**
   * Whether a value fits the bytes of its field: bytes and text by length and characters, binary integers by two's
   * complement, packed and display numbers by the digits of the rounded coefficient.
   */
  predicate Writable(v: Option<SourceValue>, spec: ColumnSpec, py: Python) {
    var l := spec.field.layout;
    if IsBytes(v) then |v.value.bytes| <= l.length
    else if !l.isNumeric then |AsText(v, py)| <= l.length && Encodable(AsText(v, py), spec.codec)
    else if spec.field.usage == Comp then
      var i := AsInt(v, py);
      i.Ok? && -(Pow256(l.length) as int) <= 2 * i.value < Pow256(l.length)
    else
      var d := AsDecimal(v, py);
      d.Ok? && if spec.field.usage == Comp3 then Packs(RoundedCoeff(d.value, l.scale), l.length, l.scale)
               else ShownFits(d.value, l.scale, l.length, spec.codec)
  }

  lemma TextWritable(text: string, length: nat, codec: Codec)
    requires codec.Valid()
    ensures (EncodeText(Ljust(text, length), codec).Ok? && |EncodeText(Ljust(text, length), codec).value| == length) <==>
            |text| <= length && Encodable(text, codec)
  {
    var padded := Ljust(text, length);
    codec.EncodeCharwise(padded);
    if |text| <= length {
      assert forall i :: 0 <= i < |padded| ==> padded[i] == if i < |text| then text[i] else ' ';
    }
  }

  lemma PackedWritable(v: Option<SourceValue>, spec: ColumnSpec, py: Python)
    requires spec.field.usage == Comp3 && spec.field.layout.isNumeric && !IsBytes(v)
    ensures EncodeField(v, spec, py).Ok? <==> Writable(v, spec, py)
  {
    var l := spec.field.layout;
    match AsDecimal(v, py)
    case Err(_) =>
    case Ok(d) => UnpackAfterPack(d, l.length, l.scale);
  }

  lemma DisplayWritable(v: Option<SourceValue>, spec: ColumnSpec, py: Python)
    requires spec.field.usage == Display && spec.field.layout.isNumeric && !IsBytes(v)
    ensures EncodeField(v, spec, py).Ok? <==> Writable(v, spec, py)
  {
    match AsDecimal(v, py)
    case Err(_) =>
    case Ok(d) => DisplayWritten(d, v, spec, py);
  }

  /** A value, or a missing one, can be written exactly when it fits its field. */
  lemma FieldWritable(v: Option<SourceValue>, spec: ColumnSpec, py: Python)
    requires spec.codec.Valid() && WellFormed(spec.field)
    ensures EncodeField(v, spec, py).Ok? <==> Writable(v, spec, py)
  {
    LayoutHoldsDigits(spec.field.pic, spec.field.usage);
    if IsBytes(v) {
    } else if !spec.field.layout.isNumeric {
      TextWritable(AsText(v, py), spec.field.layout.length, spec.codec);
    } else {
      match spec.field.usage
      case Comp =>
      case Comp3 => PackedWritable(v, spec, py);
      case Display => DisplayWritable(v, spec, py);
    }
  }

  // ---- tables and their rows ----

  ghost predicate DistinctColumns(specs: seq<ColumnSpec>) {
    forall i, j :: 0 <= i < j < |specs| ==> specs[i].name != specs[j].name && specs[i].field != specs[j].field
  }

  /** Columns of one table over one copybook. */
  ghost predicate TableSpecs(specs: seq<ColumnSpec>, book: Copybook) {
    && Tiles(book.fields, book.recordLength) && DistinctColumns(specs)
    && forall s :: s in specs ==> s.field in book.fields && s.codec.Valid()
  }

  lemma SpecsFit(specs: seq<ColumnSpec>, book: Copybook)
    requires TableSpecs(specs, book)
    ensures FieldsWithin(specs, book.recordLength)
    ensures forall s :: s in specs ==> WellFormed(s.field)
  {
    CopybookColumnsSeparate(book.fields, book.recordLength, specs);
  }

  lemma {:induction false} OverlayOk(ps: seq<Piece>, n: nat)
    requires AllFit(ps, n)
    ensures Overlay(ps, n).Ok? <==> forall i :: 0 <= i < |ps| ==> ps[i].bytes.Ok?
  {
    if ps == [] {
    } else {
      OverlayOk(ps[..|ps| - 1], n);
    }
  }

  /** Every value of the row fits its field. */
  ghost predicate RowWritable(row: map<string, SourceValue>, specs: seq<ColumnSpec>, py: Python) {
    forall s :: s in specs ==> Writable(Get(row, s.name), s, py)
  }

  /** A row, whatever columns it misses, can be written exactly when every value fits its field. */
  lemma RecordWritable(row: map<string, SourceValue>, specs: seq<ColumnSpec>, book: Copybook, py: Python)
    requires TableSpecs(specs, book)
    ensures FieldsWithin(specs, book.recordLength)
    ensures Written(row, specs, book.recordLength, py).Ok? <==> RowWritable(row, specs, py)
  {
    SpecsFit(specs, book);
    var ps := Pieces(row, specs, py);
    OverlayOk(ps, book.recordLength);
    forall i | 0 <= i < |specs|
      ensures specs[i] in specs && (ps[i].bytes.Ok? <==> Writable(Get(row, specs[i].name), specs[i], py))
    {
      FieldWritable(Get(row, specs[i].name), specs[i], py);
    }
  }

  // ---- what a written record converts to ----

  /** What must come back for every column of a row. */
  function ExpectedOutcomes(row: map<string, SourceValue>, specs: seq<ColumnSpec>, py: Python): (os: seq<Outcome>)
    ensures |os| == |specs|
  {
    seq(|specs|, i requires 0 <= i < |specs| => Outcome(specs[i].name, Expected(Get(row, specs[i].name), specs[i], py)))
  }

  /** The text that a key column makes of what its field holds. */
  function KeyOf(h: Held, spec: ColumnSpec): Option<string> {
    match h
    case HeldText(text) => Some(text)
    case HeldBytes(raw) => Decoded(raw, spec.codec)
    case HeldNumber(i) => Decoded(NumberBytes(i, spec), spec.codec)
  }

  function Decoded(raw: seq<byte>, codec: Codec): Option<string> {
    match codec.Decode(raw) case Err(_) => None case Ok(s) => Some(s)
  }

  function KeyText(v: Option<SourceValue>, spec: ColumnSpec, py: Python): Option<string> {
    match Holding(v, spec, py) case None => None case Some(h) => KeyOf(h, spec)
  }

  /** The texts of the key columns in order; none when some key is not text. */
  function ExpectedKey(row: map<string, SourceValue>, specs: seq<ColumnSpec>, py: Python): Option<seq<string>> {
    if specs == [] then Some([])
    else
      var done, spec := ExpectedKey(row, specs[..|specs| - 1], py), specs[|specs| - 1];
      if done.None? || !spec.isKey then done
      else match KeyText(Get(row, spec.name), spec, py) case None => None case Some(s) => Some(done.value + [s])
  }

  /** What must come back for a row: its source key and its columns up to the first that is rejected. */
  function ExpectedRecord(row: map<string, SourceValue>, specs: seq<ColumnSpec>, py: Python): Result<Converted, KeyError> {
    match ExpectedKey(row, specs, py)
    case None => Err(UndecodableKey)
    case Some(parts) => Ok(Converted(Join(parts, '|'), Collect(ExpectedOutcomes(row, specs, py))))
  }

  lemma ColumnComesBack(row: map<string, SourceValue>, specs: seq<ColumnSpec>, book: Copybook, py: Python,
                        record: seq<byte>, i: nat)
    requires TableSpecs(specs, book) && i < |specs| && FieldsWithin(specs, book.recordLength)
    requires Written(row, specs, book.recordLength, py) == Ok(record)
    ensures specs[i] in specs
    ensures EncodeField(Get(row, specs[i].name), specs[i], py) == Ok(specs[i].field.Slice(record))
    ensures ConvertField(specs[i].field.Slice(record), specs[i], py) == Expected(Get(row, specs[i].name), specs[i], py)
  {
    SpecsFit(specs, book);
    CopybookColumnsSeparate(book.fields, book.recordLength, specs);
    ColumnsUndisturbed(row, specs, book.recordLength, py, i);
    FieldRoundTrip(Get(row, specs[i].name), specs[i], py);
  }

  lemma NumberWritten(v: Option<SourceValue>, spec: ColumnSpec, py: Python)
    requires WellFormed(spec.field) && spec.field.layout.isNumeric && !IsBytes(v) && EncodeField(v, spec, py).Ok?
    ensures HeldInteger(v, spec.field, py).Some?
    ensures EncodeField(v, spec, py).value == NumberBytes(HeldInteger(v, spec.field, py).value, spec)
  {
    match spec.field.usage
    case Comp =>
    case Comp3 => PackedIsWritten(v, spec, py);
    case Display => DisplayWritten(AsDecimal(v, py).value, v, spec, py);
  }

  lemma BytesKey(v: Option<SourceValue>, spec: ColumnSpec, py: Python)
    requires IsBytes(v) && EncodeField(v, spec, py).Ok?
    ensures KeyText(v, spec, py) == Decoded(EncodeField(v, spec, py).value, spec.codec)
  {
  }

  /** The text of a key column is what its field decodes to. */
  lemma KeyComesBack(v: Option<SourceValue>, spec: ColumnSpec, py: Python)
    requires spec.codec.Valid() && WellFormed(spec.field) && EncodeField(v, spec, py).Ok?
    ensures KeyText(v, spec, py) == Decoded(EncodeField(v, spec, py).value, spec.codec)
  {
    if IsBytes(v) {
      BytesKey(v, spec, py);
    } else if spec.field.layout.isNumeric {
      NumberWritten(v, spec, py);
    } else {
      TextKey(v, spec, py);
    }
  }

  lemma TextKey(v: Option<SourceValue>, spec: ColumnSpec, py: Python)
    requires spec.codec.Valid() && !spec.field.layout.isNumeric && !IsBytes(v) && EncodeField(v, spec, py).Ok?
    ensures Decoded(EncodeField(v, spec, py).value, spec.codec) == Some(Ljust(AsText(v, py), spec.field.layout.length))
  {
    spec.codec.DecodeOfEncode(Ljust(AsText(v, py), spec.field.layout.length));
  }

  /** Slice by slice, the record holds the encodings of the row. */
  ghost predicate HoldsRow(record: seq<byte>, row: map<string, SourceValue>, specs: seq<ColumnSpec>, py: Python) {
    forall s :: s in specs ==> EncodeField(Get(row, s.name), s, py) == Ok(s.field.Slice(record))
  }

  lemma {:induction false} KeysComeBack(record: seq<byte>, row: map<string, SourceValue>, specs: seq<ColumnSpec>, py: Python)
    requires HoldsRow(record, row, specs, py) && forall s :: s in specs ==> s.codec.Valid() && WellFormed(s.field)
    ensures KeyParts(record, specs) == ExpectedKey(row, specs, py)
  {
    if specs == [] {
    } else {
      var front, last := specs[..|specs| - 1], specs[|specs| - 1];
      assert specs == front + [last];
      KeysComeBack(record, row, front, py);
      KeyComesBack(Get(row, last.name), last, py);
    }
  }

  /**
   * Record round trip, over the whole of `convert_record`: any row that fits its fields, with verbatim bytes and missing
   * values where it has them, is written, and reading the record back gives the source key and exactly the columns, or
   * the rejection, that the reference says.
   */
  lemma RecordRoundTrip(row: map<string, SourceValue>, specs: seq<ColumnSpec>, book: Copybook, py: Python)
    requires TableSpecs(specs, book) && RowWritable(row, specs, py)
    ensures FieldsWithin(specs, book.recordLength) && Written(row, specs, book.recordLength, py).Ok?
    ensures ConvertedRecord(Written(row, specs, book.recordLength, py).value, specs, py) == ExpectedRecord(row, specs, py)
  {
    RecordWritable(row, specs, book, py);
    SpecsFit(specs, book);
    var record := Written(row, specs, book.recordLength, py).value;
    forall i | 0 <= i < |specs|
      ensures specs[i] in specs && EncodeField(Get(row, specs[i].name), specs[i], py) == Ok(specs[i].field.Slice(record))
      ensures Outcomes(record, specs, py)[i] == ExpectedOutcomes(row, specs, py)[i]
    {
      ColumnComesBack(row, specs, book, py, record, i);
    }
    assert Outcomes(record, specs, py) == ExpectedOutcomes(row, specs, py);
    KeysComeBack(record, row, specs, py);
  }

  // ---- rows whose every column is accepted ----

  /** Every column of the row is accepted. */
  ghost predicate RowAccepted(row: map<string, SourceValue>, specs: seq<ColumnSpec>, py: Python) {
    forall s :: s in specs ==> Expected(Get(row, s.name), s, py).Ok?
  }

  ghost predicate ColumnHolds(c: Columns, row: map<string, SourceValue>, spec: ColumnSpec, py: Python)
    requires Expected(Get(row, spec.name), spec, py).Ok?
  {
    spec.name in c.values && spec.name in c.texts &&
    (c.values[spec.name], c.texts[spec.name]) == Expected(Get(row, spec.name), spec, py).value
  }

  /** The columns that such a row converts to: none is rejected, each has its expected value, and no other is there. */
  ghost predicate ColumnsHold(c: Columns, row: map<string, SourceValue>, specs: seq<ColumnSpec>, py: Python)
    requires RowAccepted(row, specs, py)
  {
    && c.error.None?
    && (forall s :: s in specs ==> ColumnHolds(c, row, s, py))
    && (forall name :: name in c.values <==> exists i :: 0 <= i < |specs| && specs[i].name == name)
  }

  lemma AcceptedColumns(row: map<string, SourceValue>, specs: seq<ColumnSpec>, py: Python)
    requires DistinctColumns(specs) && RowAccepted(row, specs, py)
    ensures ColumnsHold(Collect(ExpectedOutcomes(row, specs, py)), row, specs, py)
  {
    var os := ExpectedOutcomes(row, specs, py);
    forall i | 0 <= i < |specs|
      ensures os[i].name == specs[i].name && specs[i] in specs && os[i].result.Ok?
    {
    }
    CollectAll(os);
    var c := Collect(os);
    forall s | s in specs
      ensures ColumnHolds(c, row, s, py)
    {
      var i :| 0 <= i < |specs| && specs[i] == s;
      assert Holds(c, os[i]);
    }
    forall name
      ensures name in c.values <==> exists i :: 0 <= i < |specs| && specs[i].name == name
    {
      if name in c.values {
        var i :| 0 <= i < |os| && os[i].name == name;
        assert specs[i].name == name;
      }
      if i :| 0 <= i < |specs| && specs[i].name == name {
        assert os[i].name == name;
      }
    }
  }

  predicate IsText(k: Kind) { k == KChar || k == KDate8 || k == KTimestamp12 }

  /** Every key column reads text, as the keys of every table do. */
  ghost predicate TextKeys(specs: seq<ColumnSpec>) { forall s :: s in specs && s.isKey ==> IsText(s.kind) }

  /** A text column that accepts its value has a key text. */
  lemma AcceptedKey(v: Option<SourceValue>, spec: ColumnSpec, py: Python)
    requires IsText(spec.kind) && Expected(v, spec, py).Ok?
    ensures KeyText(v, spec, py).Some?
  {
  }

  lemma {:induction false} AcceptedKeys(row: map<string, SourceValue>, specs: seq<ColumnSpec>, py: Python)
    requires RowAccepted(row, specs, py) && TextKeys(specs)
    ensures ExpectedKey(row, specs, py).Some?
  {
    if specs == [] {
    } else {
      var front, last := specs[..|specs| - 1], specs[|specs| - 1];
      assert specs == front + [last];
      AcceptedKeys(row, front, py);
      if last.isKey { AcceptedKey(Get(row, last.name), last, py); }
    }
  }

  /**
   * With text keys, a row whose every column is accepted converts: the source key joins the key texts of the row, and
   * the columns hold what the row says.
   */
  lemma RecordWithTextKeys(row: map<string, SourceValue>, specs: seq<ColumnSpec>, book: Copybook, py: Python)
    requires TableSpecs(specs, book) && RowWritable(row, specs, py) && RowAccepted(row, specs, py) && TextKeys(specs)
    ensures FieldsWithin(specs, book.recordLength) && Written(row, specs, book.recordLength, py).Ok?
    ensures ExpectedKey(row, specs, py).Some?
    ensures var r := ConvertedRecord(Written(row, specs, book.recordLength, py).value, specs, py);
            && r.Ok? && r.value.sourceKey == Join(ExpectedKey(row, specs, py).value, '|')
            && ColumnsHold(r.value.columns, row, specs, py)
  {
    RecordRoundTrip(row, specs, book, py);
    AcceptedKeys(row, specs, py);
    AcceptedColumns(row, specs, py);
  }

  /** With one key column, the first, the key is its text. */
  lemma {:induction false} FirstIsKey(row: map<string, SourceValue>, specs: seq<ColumnSpec>, py: Python)
    requires specs != [] && KeyText(Get(row, specs[0].name), specs[0], py).Some?
    requires forall i :: 0 <= i < |specs| ==> (specs[i].isKey <==> i == 0)
    ensures ExpectedKey(row, specs, py) == Some([KeyText(Get(row, specs[0].name), specs[0], py).value])
  {
    var front, last := specs[..|specs| - 1], specs[|specs| - 1];
    if front == [] {
      assert ExpectedKey(row, front, py) == Some([]);
      assert [] + [KeyText(Get(row, last.name), last, py).value] == [KeyText(Get(row, last.name), last, py).value];
    } else {
      FirstIsKey(row, front, py);
    }
  }

  // ---- the other direction: writing back what was read ----

  function SourceOf(c: Cell): SourceValue {
    match c
    case VText(s) => SText(s)
    case VInt(i) => SInt(i)
    case VDec(d) => SDec(d)
    case VBytes(b) => SBytes(b)
    case VDate(d) => SText(Calendar.Date8Text(d))
    case VTimestamp(ts) => STimestamp(ts.text)
  }

  lemma SourceIsDecoded(raw: seq<byte>, spec: ColumnSpec, py: Python)
    requires spec.kind in {KChar, KDate8, KTimestamp12} && ConvertField(raw, spec, py).Ok?
    ensures spec.codec.Decode(raw).Ok? && ConvertField(raw, spec, py).value.1 == VText(spec.codec.Decode(raw).value)
  {
  }

  lemma DecodedIsWritten(raw: seq<byte>, text: string, spec: ColumnSpec, py: Python)
    requires spec.codec.Valid() && |raw| == spec.field.layout.length && spec.codec.Decode(raw) == Ok(text)
    requires !spec.field.layout.isNumeric
    ensures EncodeField(Some(SText(text)), spec, py) == Ok(raw)
  {
    spec.codec.EncodeOfDecode(raw);
    assert Ljust(text, |raw|) == text;
  }

  lemma TextRewritten(raw: seq<byte>, spec: ColumnSpec, py: Python)
    requires spec.codec.Valid() && |raw| == spec.field.layout.length && ConvertField(raw, spec, py).Ok?
    requires spec.kind in {KChar, KDate8, KTimestamp12} && !spec.field.layout.isNumeric
    ensures EncodeField(Some(SourceOf(ConvertField(raw, spec, py).value.1)), spec, py) == Ok(raw)
  {
    SourceIsDecoded(raw, spec, py);
    DecodedIsWritten(raw, spec.codec.Decode(raw).value, spec, py);
  }

  lemma IntegerRewritten(raw: seq<byte>, spec: ColumnSpec, py: Python)
    requires |raw| == spec.field.layout.length && ConvertField(raw, spec, py).Ok?
    requires spec.kind == KInt && spec.field.layout.isNumeric && spec.field.usage == Comp
    ensures EncodeField(Some(SourceOf(ConvertField(raw, spec, py).value.1)), spec, py) == Ok(raw)
  {
    ToSignedOfFromSigned(raw);
    assert ConvertField(raw, spec, py).value.1 == VInt(FromSigned(raw));
  }

  /** Text, binary and binary-integer fields are written back byte for byte from their source value. */
  lemma FieldRewritten(raw: seq<byte>, spec: ColumnSpec, py: Python)
    requires spec.codec.Valid() && |raw| == spec.field.layout.length && ConvertField(raw, spec, py).Ok?
    requires spec.kind == KBinary
             || (spec.kind in {KChar, KDate8, KTimestamp12} && !spec.field.layout.isNumeric)
             || (spec.kind == KInt && spec.field.layout.isNumeric && spec.field.usage == Comp)
    ensures EncodeField(Some(SourceOf(ConvertField(raw, spec, py).value.1)), spec, py) == Ok(raw)
  {
    if spec.kind == KInt {
      IntegerRewritten(raw, spec, py);
    } else if spec.kind != KBinary {
      TextRewritten(raw, spec, py);
    }
  }

  lemma ZeroRounds(d: Decimal, scale: nat)
    requires d.coeff == 0
    ensures RoundedCoeff(d, scale) == 0
  {
    if d.exp + scale < 0 {
      RoundZero(Pow10(-(d.exp + scale)));
    }
  }

  lemma RoundZero(p: nat)
    requires p > 0
    ensures RoundHalfEven(0, p) == 0
  {
    assert 0 / p == 0 && 0 % p == 0;
  }

  lemma RepackZero(d: Decimal, length: nat, scale: nat)
    requires d.coeff == 0
    ensures PackComp3(d, length, scale) == PackComp3(Scaled(0, 0), length, scale)
  {
    ZeroRounds(d, scale);
    ZeroRounds(Scaled(0, 0), scale);
    assert NumDigits(0) == 1;
    PackedDigits(d.neg, 0, length, scale);
    PackedDigits(false, 0, length, scale);
  }

  /** Packed fields are written back up to the sign code, whenever an integer digit and the precision allow. */
  lemma PackedFieldRewritten(raw: seq<byte>, spec: ColumnSpec, py: Python)
    requires |raw| == spec.field.layout.length && ConvertField(raw, spec, py).Ok?
    requires spec.kind == KDecimal && spec.field.layout.isNumeric && spec.field.usage == Comp3
    ensures var d := ConvertField(raw, spec, py).value.1.d;
            var r := EncodeField(Some(SDec(d)), spec, py);
            && (r.Ok? <==> NumDigits(d.coeff) <= PRECISION && spec.field.layout.scale < 2 * |raw| - 1)
            && (r.Ok? ==> raw != [] && r.value == Normalized(raw, d.neg && d.coeff > 0))
  {
    var scale := spec.field.layout.scale;
    var d := Unpacked(raw, scale).value;
    PackAfterUnpack(raw, scale);
    UnpackAfterPack(d, |raw|, scale);
    if d.coeff == 0 { RepackZero(d, |raw|, scale); }
  }
}
