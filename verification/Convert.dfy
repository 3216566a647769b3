/** Converting fixed-width records to target values, and the inverse writer (migration/job/ldm/convert.py). */
module Convert {
  import Bits
  import opened Bytes
  import opened Calendar
  import opened Codecs
  import opened Copybook
  import opened Decimals
  import opened Digits
  import opened Packed
  import opened Results
  import opened Texts
  import opened Timestamps

  datatype Kind = KChar | KInt | KDecimal | KTimestamp12 | KDate8 | KBinary

  datatype TargetBase = SMALLINT | INT | INTEGER | BIGINT | TINYINT | OtherBase

  datatype ColumnSpec = ColumnSpec(
    name: string, field: Field, kind: Kind, isKey: bool, codec: Codec, ebcdic: bool, trim: bool,
    valueMap: map<string, string>, targetBase: TargetBase, targetPrecision: nat, targetScale: nat, targetLength: nat)

  /** Python's readers and printers of numbers, beyond the plain digits that this model writes out. */
  datatype Python = Python(
    otherInt: string -> Option<int>, otherDecimal: string -> Option<Decimal>, decimalText: Decimal -> string)

  datatype Cell =
    | VText(text: string) | VInt(i: int) | VDec(d: Decimal) | VBytes(bytes: seq<byte>)
    | VDate(date: Date) | VTimestamp(ts: Timestamp12)

  datatype Rule =
    | CcsidUnmappable(at: nat) | StringTruncation | DateInvalid | TimestampInvalid | NumericInvalid
    | PackedInvalid | IntegerOverflow | DecimalOverflow

  // ---- reading one field ----

  /** Longest digit string `int()` accepts. */
  const INT_MAX_STR_DIGITS := 4300

  function IntOfText(s: string, py: Python): Option<int> {
    if PlainNumber(s) then (if |s| <= INT_MAX_STR_DIGITS then Some(Value(s)) else None)
    else py.otherInt(s)
  }

  /** `Decimal(whole + "." + fraction)`. */
  function DecimalOfParts(whole: string, fraction: string, py: Python): Option<Decimal> {
    if PlainNumber(whole + fraction) then Some(Decimal(false, Value(whole + fraction), Neg(|fraction|)))
    else py.otherDecimal(whole + "." + fraction)
  }

  function DecimalOfText(s: string, py: Python): Option<Decimal> {
    if PlainNumber(s) then Some(Decimal(false, Value(s), 0)) else py.otherDecimal(s)
  }

  /** Python's slice index `n - k` of a text of length `n`: a negative one counts from the end. */
  function PointAt(n: nat, k: nat): (i: nat)
    ensures i <= n
  {
    if k <= n then n - k else Max(n + (n - k), 0)
  }

  /** The number of a display field, its point where the scale of the field says. */
  function ShownDecimal(s: string, scale: nat, py: Python): Option<Decimal> {
    var k := PointAt(|s|, scale);
    if scale == 0 then DecimalOfText(s, py) else DecimalOfParts(s[..k], s[k..], py)
  }

  predicate IsControl(c: char) { c < ' ' || '\U{007F}' <= c <= '\U{009F}' }

  function FirstControl(text: string, from: nat): Option<nat>
    decreases |text| - from
  {
    if from >= |text| then None
    else if IsControl(text[from]) then Some(from)
    else FirstControl(text, from + 1)
  }

  /** A value-map hit replaces the text; it is padded to the width of what it replaces unless trimming. */
  function MappedText(text: string, spec: ColumnSpec): string {
    var value := if spec.trim then Rstrip(text) else text;
    var key := Rstrip(value);
    if key in spec.valueMap then
      (if spec.trim then spec.valueMap[key] else Ljust(spec.valueMap[key], |value|))
    else value
  }

  function CharValue(text: string, spec: ColumnSpec): Result<string, Rule> {
    var value := MappedText(text, spec);
    if spec.targetLength > 0 && |value| > spec.targetLength then Err(StringTruncation) else Ok(value)
  }

  /** `YYYYMMDD` digits of a calendar date. */
  function ParseDate8(text: string): Option<Date> {
    var t := Chopped(text, 8);
    if |t| != 8 || !PlainNumber(t) then None
    else
      var d := Date(Value(t[0..4]), Value(t[4..6]), Value(t[6..8]));
      if ValidDate(d) then Some(d) else None
  }

  function IntBits(b: TargetBase): nat {
    match b
    case SMALLINT => 15
    case INT | INTEGER => 31
    case TINYINT => 8
    case BIGINT | OtherBase => 63
  }

  predicate IntFits(i: int, spec: ColumnSpec) {
    Neg(Bits.Pow2(IntBits(spec.targetBase))) <= i < Bits.Pow2(IntBits(spec.targetBase))
  }

  function ReadInt(raw: seq<byte>, spec: ColumnSpec, py: Python): Result<int, Rule> {
    match spec.field.usage
    case Comp => Ok(FromSigned(raw))
    case Display =>
      (match spec.codec.Decode(raw)
       case Err(_) => Err(NumericInvalid)
       case Ok(s) => match IntOfText(s, py) case None => Err(NumericInvalid) case Some(i) => Ok(i))
    case Comp3 =>
      match Unpacked(raw, 0)
      case Err(_) => Err(PackedInvalid)
      case Ok(d) => Ok(if d.neg then -(d.coeff as int) else d.coeff)
  }

  function ReadDecimal(raw: seq<byte>, spec: ColumnSpec, py: Python): Result<Decimal, Rule> {
    var scale := spec.field.layout.scale;
    match spec.field.usage
    case Comp3 => (match Unpacked(raw, scale) case Err(_) => Err(PackedInvalid) case Ok(d) => Ok(d))
    case Display =>
      (match spec.codec.Decode(raw)
       case Err(_) => Err(NumericInvalid)
       case Ok(s) => match ShownDecimal(s, scale, py) case None => Err(NumericInvalid) case Some(d) => Ok(d))
    case Comp => Ok(Scaled(FromSigned(raw), scale))
  }

  /** The three kinds of text column, once the bytes are decoded. */
  function ConvertText(text: string, spec: ColumnSpec): Result<(Cell, Cell), Rule> {
    if spec.kind == KDate8 then
      match ParseDate8(text)
      case None => Err(DateInvalid)
      case Some(d) => Ok((VDate(d), VText(text)))
    else if spec.kind == KTimestamp12 then
      match ParseTimestamp12(text)
      case None => Err(TimestampInvalid)
      case Some(ts) => Ok((VTimestamp(ts), VText(text)))
    else
      match FirstControl(text, 0)
      case Some(k) => Err(CcsidUnmappable(k))
      case None =>
        match CharValue(text, spec)
        case Err(e) => Err(e)
        case Ok(v) => Ok((VText(v), VText(text)))
  }

  function ConvertInt(i: int, spec: ColumnSpec): Result<(Cell, Cell), Rule> {
    if IntFits(i, spec) then Ok((VInt(i), VInt(i))) else Err(IntegerOverflow)
  }

  function ConvertDecimal(d: Decimal, spec: ColumnSpec): Result<(Cell, Cell), Rule> {
    if DecimalFits(d, spec.targetPrecision, spec.targetScale) then Ok((VDec(d), VDec(d))) else Err(DecimalOverflow)
  }

  /** `_convert_field`: the target value and the source value of one field. */
  function ConvertField(raw: seq<byte>, spec: ColumnSpec, py: Python): Result<(Cell, Cell), Rule> {
    match spec.kind
    case KBinary => Ok((VBytes(raw), VBytes(raw)))
    case KInt => (match ReadInt(raw, spec, py) case Err(e) => Err(e) case Ok(i) => ConvertInt(i, spec))
    case KDecimal => (match ReadDecimal(raw, spec, py) case Err(e) => Err(e) case Ok(d) => ConvertDecimal(d, spec))
    case KChar | KDate8 | KTimestamp12 =>
      match spec.codec.Decode(raw)
      case Err(k) => Err(CcsidUnmappable(k))
      case Ok(text) => ConvertText(text, spec)
  }

  // ---- which characters a text column refuses ----

  /** A character that is neither a C0 control, nor DEL, nor a C1 control. */
  predicate Graphic(c: char) { '\U{0020}' <= c < '\U{007F}' || '\U{009F}' < c }

  ghost predicate AllGraphic(text: string) { forall j :: 0 <= j < |text| ==> Graphic(text[j]) }

  lemma {:induction false} FirstControlFound(text: string, from: nat)
    requires from <= |text|
    ensures match FirstControl(text, from)
            case None => forall j :: from <= j < |text| ==> Graphic(text[j])
            case Some(k) =>
              from <= k < |text| && !Graphic(text[k]) && forall j :: from <= j < k ==> Graphic(text[j])
    decreases |text| - from
  {
    if from < |text| && Graphic(text[from]) { FirstControlFound(text, from + 1); }
  }

  /** A text column is refused at `k` exactly when `k` is the first place of a control character. */
  lemma ControlRefusedExactly(raw: seq<byte>, text: string, spec: ColumnSpec, py: Python, k: nat)
    requires spec.kind == KChar && spec.codec.Decode(raw) == Ok(text)
    ensures ConvertField(raw, spec, py) == Err(CcsidUnmappable(k)) <==>
            && k < |text| && (text[k] < '\U{0020}' || '\U{007F}' <= text[k] <= '\U{009F}')
            && forall j :: 0 <= j < k ==> Graphic(text[j])
  {
    FirstControlFound(text, 0);
  }

  lemma GraphicMapped(text: string, spec: ColumnSpec)
    requires AllGraphic(text) && Rstrip(text) !in spec.valueMap
    ensures AllGraphic(MappedText(text, spec))
  {
    RstripTwice(text);
  }

  /** An accepted text column holds no control character: neither its source text nor a value no map replaced. */
  lemma AcceptedIsGraphic(raw: seq<byte>, spec: ColumnSpec, py: Python)
    requires spec.kind == KChar && ConvertField(raw, spec, py).Ok?
    ensures var (value, source) := ConvertField(raw, spec, py).value;
            && value.VText? && source.VText? && spec.codec.Decode(raw) == Ok(source.text)
            && (forall c :: c in source.text ==> !(c < '\U{0020}' || '\U{007F}' <= c <= '\U{009F}'))
            && (Rstrip(source.text) !in spec.valueMap ==> AllGraphic(value.text))
  {
    var text := spec.codec.Decode(raw).value;
    FirstControlFound(text, 0);
    if Rstrip(text) !in spec.valueMap { GraphicMapped(text, spec); }
  }

  // ---- which values a column accepts ----

  lemma IntRanges()
    ensures Bits.Pow2(8) == 256 && Bits.Pow2(15) == 32_768 && Bits.Pow2(31) == 2_147_483_648
    ensures Bits.Pow2(63) == 9_223_372_036_854_775_808
  {
    assert Bits.Pow2(7) == 128 && Bits.Pow2(8) == 256;
    Bits.Pow2Add(8, 7);
    Bits.Pow2Add(8, 8);
    Bits.Pow2Add(16, 15);
    Bits.Pow2Add(16, 16);
    Bits.Pow2Add(32, 31);
  }

  /**
   * The numbers that an integer column of a target type takes: two's complement of its width, and of nine bits for
   * TINYINT.
   */
  predicate TakesInt(b: TargetBase, i: int) {
    match b
    case SMALLINT => -32_768 <= i <= 32_767
    case INT | INTEGER => -2_147_483_648 <= i <= 2_147_483_647
    case TINYINT => -256 <= i <= 255
    case BIGINT | OtherBase => -9_223_372_036_854_775_808 <= i <= 9_223_372_036_854_775_807
  }

  /** An integer column is accepted exactly when its number can be read and lies in the range of the target type. */
  lemma IntegerAcceptedExactly(raw: seq<byte>, spec: ColumnSpec, py: Python, i: int)
    requires spec.kind == KInt
    ensures ReadInt(raw, spec, py) == Ok(i) ==>
              ConvertField(raw, spec, py) ==
              if TakesInt(spec.targetBase, i) then Ok((VInt(i), VInt(i))) else Err(IntegerOverflow)
    ensures ReadInt(raw, spec, py).Err? ==> ConvertField(raw, spec, py) == Err(ReadInt(raw, spec, py).error)
  {
    IntRanges();
  }

  /**
   * A text column without control characters is accepted exactly when its value is not longer than the target type
   * allows, a length of zero standing for no bound. The value is the text, or what the value map makes of the text
   * without its trailing blanks; and it keeps the width of what it stands for unless the column is trimmed.
   */
  lemma TextAcceptedExactly(raw: seq<byte>, text: string, spec: ColumnSpec, py: Python)
    requires spec.kind == KChar && spec.codec.Decode(raw) == Ok(text) && AllGraphic(text)
    ensures var key := Rstrip(text);
            var value := if key in spec.valueMap then spec.valueMap[key] else if spec.trim then key else text;
            var shown := if key in spec.valueMap && !spec.trim then Ljust(value, |text|) else value;
            ConvertField(raw, spec, py) ==
            if spec.targetLength == 0 || |shown| <= spec.targetLength then Ok((VText(shown), VText(text)))
            else Err(StringTruncation)
  {
    FirstControlFound(text, 0);
    RstripTwice(text);
  }

  /**
   * The number that a display field shows, its point in front of the last digits that the scale counts: digits as they
   * are, any other text as Python reads it.
   */
  lemma DisplayReadExactly(raw: seq<byte>, s: string, spec: ColumnSpec, py: Python)
    requires spec.field.usage == Display && spec.codec.Decode(raw) == Ok(s)
    ensures var scale := spec.field.layout.scale;
            0 < scale <= |s| ==>
              var text := s[..|s| - scale] + ("." + s[|s| - scale..]);
              var d := if PlainNumber(s) then Some(Decimal(false, Value(s), Neg(scale))) else py.otherDecimal(text);
              ReadDecimal(raw, spec, py) == match d case Some(x) => Ok(x) case None => Err(NumericInvalid)
    ensures spec.field.layout.scale == 0 ==>
              var d := if PlainNumber(s) then Some(Decimal(false, Value(s), 0)) else py.otherDecimal(s);
              ReadDecimal(raw, spec, py) == match d case Some(x) => Ok(x) case None => Err(NumericInvalid)
    ensures var i := if !PlainNumber(s) then py.otherInt(s) else if |s| <= 4300 then Some(Value(s)) else None;
            ReadInt(raw, spec, py) == match i case Some(x) => Ok(x) case None => Err(NumericInvalid)
  {
    var scale := spec.field.layout.scale;
    if 0 < scale <= |s| {
      var k := |s| - scale;
      assert s[..k] + s[k..] == s;
      assert s[..k] + ("." + s[k..]) == s[..k] + "." + s[k..];
    }
  }

  /** Binary and packed fields: two's complement, or packed digits, at the scale of the field. */
  lemma NumberReadExactly(raw: seq<byte>, spec: ColumnSpec, py: Python)
    ensures spec.field.usage == Comp ==>
              && ReadInt(raw, spec, py) == Ok(FromSigned(raw))
              && ReadDecimal(raw, spec, py) == Ok(Scaled(FromSigned(raw), spec.field.layout.scale))
    ensures spec.field.usage == Comp3 ==>
              && (ReadDecimal(raw, spec, py) ==
                  match Unpacked(raw, spec.field.layout.scale) case Ok(d) => Ok(d) case Err(_) => Err(PackedInvalid))
              && (ReadInt(raw, spec, py).Ok? <==> Unpacked(raw, 0).Ok?)
              && (Unpacked(raw, 0).Ok? ==>
                    Abs(ReadInt(raw, spec, py).value) == Unpacked(raw, 0).value.coeff &&
                    (ReadInt(raw, spec, py).value < 0 <==> IsNegative(Unpacked(raw, 0).value)))
  {
  }

  // ---- reading one record ----

  datatype FieldError = FieldError(column: string, rule: Rule)

  datatype Columns = Columns(values: map<string, Cell>, texts: map<string, Cell>, error: Option<FieldError>)

  datatype Outcome = Outcome(name: string, result: Result<(Cell, Cell), Rule>)

  /** What each column's own bytes convert to. */
  function Outcomes(record: seq<byte>, specs: seq<ColumnSpec>, py: Python): (os: seq<Outcome>)
    ensures |os| == |specs|
  {
    seq(|specs|, i requires 0 <= i < |specs| =>
      Outcome(specs[i].name, ConvertField(specs[i].field.Slice(record), specs[i], py)))
  }

  /** The columns of a record up to its first failure. */
  function Collect(os: seq<Outcome>): Columns {
    if os == [] then Columns(map[], map[], None)
    else
      var done, o := Collect(os[..|os| - 1]), os[|os| - 1];
      if done.error.Some? then done
      else
        match o.result
        case Err(rule) => done.(error := Some(FieldError(o.name, rule)))
        case Ok((v, t)) => Columns(done.values[o.name := v], done.texts[o.name := t], None)
  }

  function ConvertColumns(record: seq<byte>, specs: seq<ColumnSpec>, py: Python): Columns {
    Collect(Outcomes(record, specs, py))
  }

  function KeyParts(record: seq<byte>, specs: seq<ColumnSpec>): Option<seq<string>> {
    if specs == [] then Some([])
    else
      var done, spec := KeyParts(record, specs[..|specs| - 1]), specs[|specs| - 1];
      if done.None? || !spec.isKey then done
      else
        match spec.codec.Decode(spec.field.Slice(record))
        case Err(_) => None
        case Ok(s) => Some(done.value + [s])
  }

  datatype Converted = Converted(sourceKey: string, columns: Columns)

  /** A key column whose bytes do not decode raises before any column is converted. */
  datatype KeyError = UndecodableKey

  function ConvertedRecord(record: seq<byte>, specs: seq<ColumnSpec>, py: Python): Result<Converted, KeyError> {
    match KeyParts(record, specs)
    case None => Err(UndecodableKey)
    case Some(parts) => Ok(Converted(Join(parts, '|'), ConvertColumns(record, specs, py)))
  }

  lemma {:induction false} FailureStays(os: seq<Outcome>, k: nat)
    requires k <= |os| && Collect(os[..k]).error.Some?
    ensures Collect(os) == Collect(os[..k])
    decreases |os| - k
  {
    if k == |os| {
      assert os[..k] == os;
    } else {
      assert os[..k + 1][..k] == os[..k];
      FailureStays(os, k + 1);
    }
  }

  lemma CollectNext(os: seq<Outcome>, k: nat)
    requires k < |os| && Collect(os[..k]).error.None?
    ensures var c, o := Collect(os[..k]), os[k];
            Collect(os[..k + 1]) ==
            match o.result
            case Err(rule) => c.(error := Some(FieldError(o.name, rule)))
            case Ok((v, t)) => Columns(c.values[o.name := v], c.texts[o.name := t], None)
  {
    assert os[..k + 1][..k] == os[..k];
  }

  /** `convert_record`. */
  method ConvertRecord(record: seq<byte>, specs: seq<ColumnSpec>, py: Python) returns (r: Result<Converted, KeyError>)
    ensures r == ConvertedRecord(record, specs, py)
  {
    var parts := KeyParts(record, specs);
    if parts.None? { return Err(UndecodableKey); }
    var values: map<string, Cell>, texts: map<string, Cell> := map[], map[];
    ghost var os := Outcomes(record, specs, py);
    for k := 0 to |specs|
      invariant Collect(os[..k]) == Columns(values, texts, None)
    {
      var spec := specs[k];
      var result := ConvertField(spec.field.Slice(record), spec, py);
      assert os[k] == Outcome(spec.name, result);
      CollectNext(os, k);
      match result
      case Err(rule) =>
        FailureStays(os, k + 1);
        return Ok(Converted(Join(parts.value, '|'), Columns(values, texts, Some(FieldError(spec.name, rule)))));
      case Ok((v, t)) =>
        values := values[spec.name := v];
        texts := texts[spec.name := t];
    }
    assert os[..|specs|] == os;
    r := Ok(Converted(Join(parts.value, '|'), Columns(values, texts, None)));
  }

  ghost predicate DistinctNames(os: seq<Outcome>) {
    forall i, j :: 0 <= i < j < |os| ==> os[i].name != os[j].name
  }

  ghost predicate Holds(c: Columns, o: Outcome) {
    && o.result.Ok? && o.name in c.values && o.name in c.texts
    && (c.values[o.name], c.texts[o.name]) == o.result.value
  }

  /** The number of columns before the first failure. */
  function Accepted(os: seq<Outcome>): (n: nat)
    ensures n <= |os|
    ensures n < |os| ==> os[n].result.Err?
    ensures forall i :: 0 <= i < n ==> os[i].result.Ok?
  {
    if os == [] then 0
    else if os[0].result.Err? then 0
    else 1 + Accepted(os[1..])
  }

  ghost predicate AllOk(os: seq<Outcome>) { forall o :: o in os ==> o.result.Ok? }

  ghost predicate NamesOf(names: set<string>, os: seq<Outcome>, n: nat)
    requires n <= |os|
  {
    forall name :: name in names <==> exists i :: 0 <= i < n && os[i].name == name
  }

  lemma NamesExtended(names: set<string>, os: seq<Outcome>)
    requires os != [] && NamesOf(names, os[..|os| - 1], |os| - 1)
    ensures NamesOf(names + {os[|os| - 1].name}, os, |os|)
  {
    var front, o := os[..|os| - 1], os[|os| - 1];
    forall name
      ensures name in names + {o.name} <==> exists i :: 0 <= i < |os| && os[i].name == name
    {
      if name in names {
        var i :| 0 <= i < |front| && front[i].name == name;
        assert os[i].name == name;
      }
      if i :| 0 <= i < |os| && os[i].name == name {
        assert i < |front| ==> front[i].name == name;
      }
    }
  }

  lemma NamesOfPrefix(names: set<string>, os: seq<Outcome>, n: nat)
    requires n <= |os| && NamesOf(names, os[..n], n)
    ensures NamesOf(names, os, n)
  {
    var good := os[..n];
    forall name
      ensures name in names <==> exists i :: 0 <= i < n && os[i].name == name
    {
      if name in names {
        var i :| 0 <= i < n && good[i].name == name;
        assert os[i].name == name;
      }
      if i :| 0 <= i < n && os[i].name == name { assert good[i].name == name; }
    }
  }

  lemma {:induction false} CollectAll(os: seq<Outcome>)
    requires AllOk(os) && DistinctNames(os)
    ensures Collect(os).error.None?
    ensures forall i :: 0 <= i < |os| ==> Holds(Collect(os), os[i])
    ensures NamesOf(Collect(os).values.Keys, os, |os|)
    ensures Collect(os).values.Keys == Collect(os).texts.Keys
  {
    if os == [] {
    } else {
      var front, o := os[..|os| - 1], os[|os| - 1];
      CollectAll(front);
      assert o.result.Ok?;
      forall i | 0 <= i < |os|
        ensures Holds(Collect(os), os[i])
      {
        if i < |front| { assert Holds(Collect(front), front[i]); }
      }
      NamesExtended(Collect(front).values.Keys, os);
      assert Collect(os).values.Keys == Collect(front).values.Keys + {o.name};
    }
  }

  /**
   * An accepted record has converted every column from that column's own bytes; a rejected one names the
   * first column that fails, and holds exactly the columns before it.
   */
  lemma FirstFailingColumn(os: seq<Outcome>)
    requires DistinctNames(os)
    ensures var n := Accepted(os);
            && Collect(os).error == (if n == |os| then None else Some(FieldError(os[n].name, os[n].result.error)))
            && (forall i :: 0 <= i < n ==> Holds(Collect(os), os[i]))
            && NamesOf(Collect(os).values.Keys, os, n)
            && Collect(os).values.Keys == Collect(os).texts.Keys
  {
    var n := Accepted(os);
    var good := os[..n];
    CollectAll(good);
    forall i | 0 <= i < n
      ensures Holds(Collect(good), os[i])
    {
      assert Holds(Collect(good), good[i]);
    }
    NamesOfPrefix(Collect(good).values.Keys, os, n);
    if n < |os| {
      CollectNext(os, n);
      FailureStays(os, n + 1);
    } else {
      assert good == os;
    }
  }

  ghost predicate NamesApart(specs: seq<ColumnSpec>) {
    forall i, j :: 0 <= i < j < |specs| ==> specs[i].name != specs[j].name
  }

  ghost predicate ColumnsRead(record: seq<byte>, specs: seq<ColumnSpec>, py: Python, n: nat)
    requires n <= |specs|
  {
    forall i :: 0 <= i < n ==> ConvertField(specs[i].field.Slice(record), specs[i], py).Ok?
  }

  /** A column after accepted ones is the rejected one exactly when it fails. */
  lemma RejectedHere(os: seq<Outcome>, i: nat, rule: Rule)
    requires DistinctNames(os) && i < |os| && forall j :: 0 <= j < i ==> os[j].result.Ok?
    ensures Collect(os).error == Some(FieldError(os[i].name, rule)) <==> os[i].result == Err(rule)
  {
    FirstFailingColumn(os);
    var n := Accepted(os);
    if n < |os| && n != i { assert os[n].name != os[i].name; }
  }

  /**
   * A record whose columns before a text column are readable is rejected in that column, at place `k`,
   * exactly when `k` is the first place of a control character.
   */
  lemma RecordControlRefused(
    record: seq<byte>, specs: seq<ColumnSpec>, py: Python, i: nat, text: string, k: nat)
    requires NamesApart(specs) && i < |specs| && ColumnsRead(record, specs, py, i)
    requires specs[i].kind == KChar && specs[i].codec.Decode(specs[i].field.Slice(record)) == Ok(text)
    requires ConvertedRecord(record, specs, py).Ok?
    ensures ConvertedRecord(record, specs, py).value.columns.error ==
              Some(FieldError(specs[i].name, CcsidUnmappable(k))) <==>
            && k < |text| && (text[k] < '\U{0020}' || '\U{007F}' <= text[k] <= '\U{009F}')
            && forall j :: 0 <= j < k ==> Graphic(text[j])
  {
    var os, raw := Outcomes(record, specs, py), specs[i].field.Slice(record);
    assert DistinctNames(os);
    assert forall j :: 0 <= j < i ==> os[j].result.Ok?;
    assert os[i] == Outcome(specs[i].name, ConvertField(raw, specs[i], py));
    ControlRefusedExactly(raw, text, specs[i], py, k);
    RejectedHere(os, i, CcsidUnmappable(k));
  }

  /** No text that a record is read to holds a control character. */
  lemma RecordIsGraphic(record: seq<byte>, specs: seq<ColumnSpec>, py: Python, i: nat)
    requires NamesApart(specs) && i < |specs| && specs[i].kind == KChar
    requires ConvertedRecord(record, specs, py).Ok?
    requires specs[i].name in ConvertedRecord(record, specs, py).value.columns.texts
    ensures var c := ConvertedRecord(record, specs, py).value.columns;
            && specs[i].name in c.values && c.texts[specs[i].name].VText? && c.values[specs[i].name].VText?
            && (forall x :: x in c.texts[specs[i].name].text ==> !(x < '\U{0020}' || '\U{007F}' <= x <= '\U{009F}'))
            && (Rstrip(c.texts[specs[i].name].text) !in specs[i].valueMap ==>
                  AllGraphic(c.values[specs[i].name].text))
  {
    var os := Outcomes(record, specs, py);
    assert forall j :: 0 <= j < |specs| ==> os[j].name == specs[j].name;
    FirstFailingColumn(os);
    var n := Accepted(os);
    var j :| 0 <= j < n && os[j].name == specs[i].name;
    assert i == j;
    assert Holds(Collect(os), os[i]);
    AcceptedIsGraphic(specs[i].field.Slice(record), specs[i], py);
  }
}
