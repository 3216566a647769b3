/** The checks and the trim rule by which a column spec is built (migration/job/ldm/typemap.py). */
module TypeMap {
  import opened Bytes
  import opened Codecs
  import opened Convert
  import opened Copybook
  import opened Decimals
  import opened Hashing
  import opened Results
  import opened RoundTrip

  datatype Trim = TrimRight | TrimNone

  datatype Format = Yyyymmdd | OtherFormat

  datatype Override = Override(trim: Option<Trim>, format: Option<Format>, valueMap: map<string, string>)

  /** A target type as it is parsed: whether its base is a varying text type, and its arguments. */
  datatype ParsedTarget = ParsedTarget(varyingText: bool, base: TargetBase, precision: nat, scale: nat, length: nat)

  datatype SpecError =
    | UnmappedFields | UnknownField | UnsupportedFormat | FormatNeedsDate | DateNeedsEightBytes
    | PrecisionTooLarge | ScaleMismatch

  const MAX_PRECISION := 38

  /** `build_column_specs` for one column once its kind and target type are known. */
  function BuildColumn(
      name: string, field: Field, kind: Kind, isKey: bool, codec: Codec, ebcdic: bool, target: ParsedTarget, ov: Override)
    : Result<ColumnSpec, SpecError>
  {
    if ov.format == Some(OtherFormat) then Err(UnsupportedFormat)
    else if ov.format.Some? && kind != KDate8 then Err(FormatNeedsDate)
    else if ov.format.None? && kind == KDate8 && field.layout.length != 8 then Err(DateNeedsEightBytes)
    else if kind == KDecimal && target.precision > MAX_PRECISION then Err(PrecisionTooLarge)
    else if kind == KDecimal && field.layout.scale != target.scale then Err(ScaleMismatch)
    else
      var trim := ov.trim == Some(TrimRight) || (kind == KChar && target.varyingText && ov.trim.None?);
      Ok(ColumnSpec(name, field, kind, isKey, codec, ebcdic, if ov.trim == Some(TrimNone) then false else trim,
                    ov.valueMap, target.base, target.precision, target.scale, target.length))
  }

  /** What every spec that is built guarantees about its column. */
  predicate Sound(spec: ColumnSpec, target: ParsedTarget, ov: Override) {
    && (spec.kind == KDecimal ==> spec.field.layout.scale == spec.targetScale && spec.targetPrecision <= 38)
    && (spec.kind == KDate8 && ov.format.None? ==> spec.field.layout.length == 8)
    && (ov.format.Some? ==> spec.kind == KDate8)
    && (spec.trim <==> ov.trim == Some(TrimRight) || (ov.trim.None? && spec.kind == KChar && target.varyingText))
  }

  /** A column is refused exactly when one of the guarantees would fail (or its format is not the known one). */
  lemma BuiltColumnsSound(
      name: string, field: Field, kind: Kind, isKey: bool, codec: Codec, ebcdic: bool, target: ParsedTarget, ov: Override)
    ensures var r := BuildColumn(name, field, kind, isKey, codec, ebcdic, target, ov);
            && (r.Ok? ==> Sound(r.value, target, ov) &&
                          r.value.name == name && r.value.field == field && r.value.kind == kind)
            && (r.Err? <==>
                  || ov.format == Some(OtherFormat)
                  || (ov.format.Some? && kind != KDate8)
                  || (ov.format.None? && kind == KDate8 && field.layout.length != 8)
                  || (kind == KDecimal && (target.precision > 38 || field.layout.scale != target.scale)))
  {
  }

  /**
   * For every date column, with or without a format, source and target render an accepted field alike exactly when the
   * field has eight bytes, so that no newline hides behind the date, and the year has four digits.
   */
  lemma BuiltDateAgreement(raw: seq<byte>, spec: ColumnSpec, py: Python)
    requires spec.kind == KDate8 && ConvertField(raw, spec, py).Ok?
    ensures var (t, s) := ConvertField(raw, spec, py).value;
            t.VDate? && (RenderSource(s, spec) == RenderTarget(t, spec) <==> |raw| == 8 && t.date.year >= 1000)
  {
    ColumnAgreement(raw, spec, py);
  }

  /** Binary and packed numbers are read at the scale of their field. */
  lemma ReadAtScale(raw: seq<byte>, spec: ColumnSpec, py: Python)
    requires WellFormed(spec.field) && spec.field.layout.isNumeric && |raw| == spec.field.layout.length
    requires spec.field.usage != Display && ReadDecimal(raw, spec, py).Ok?
    ensures ReadDecimal(raw, spec, py).value.exp == Neg(spec.field.layout.scale)
  {
    LayoutHoldsDigits(spec.field.pic, spec.field.usage);
  }

  /** At the scale of the target, counting digits is the magnitude bound, for zero too when the precision is positive. */
  lemma FitsAtScale(d: Decimal, precision: nat, scale: nat)
    requires d.exp == Neg(scale)
    ensures DecimalFits(d, precision, scale) <==>
              MagnitudeBelow(d, precision - scale) && (d.coeff == 0 ==> precision > 0)
  {
    DecimalFitsExactly(d, precision, scale);
  }

  /**
   * A built column of binary or packed decimals accepts exactly the readable values below its magnitude bound, every
   * zero among them because the build demands equal scales; but a target type without arguments, of precision 0,
   * accepts not even a zero.
   */
  lemma BuiltDecimalIsMagnitude(raw: seq<byte>, spec: ColumnSpec, target: ParsedTarget, ov: Override, py: Python)
    requires Sound(spec, target, ov) && spec.kind == KDecimal
    requires WellFormed(spec.field) && spec.field.layout.isNumeric && spec.field.usage != Display
    requires |raw| == spec.field.layout.length
    ensures ConvertField(raw, spec, py).Ok? <==>
            && ReadDecimal(raw, spec, py).Ok?
            && MagnitudeBelow(ReadDecimal(raw, spec, py).value, spec.targetPrecision - spec.targetScale)
            && (ReadDecimal(raw, spec, py).value.coeff == 0 ==> spec.targetPrecision > 0)
  {
    if ReadDecimal(raw, spec, py).Ok? {
      ReadAtScale(raw, spec, py);
      FitsAtScale(ReadDecimal(raw, spec, py).value, spec.targetPrecision, spec.targetScale);
    }
  }

  /** A decimal column whose target type has no arguments rejects every value that it can read. */
  lemma BareDecimalRefusesAll(raw: seq<byte>, spec: ColumnSpec, target: ParsedTarget, ov: Override, py: Python)
    requires Sound(spec, target, ov) && spec.kind == KDecimal && spec.targetPrecision == 0
    requires WellFormed(spec.field) && spec.field.layout.isNumeric && spec.field.usage != Display
    requires |raw| == spec.field.layout.length && ReadDecimal(raw, spec, py).Ok?
    ensures ConvertField(raw, spec, py) == Err(DecimalOverflow)
  {
    ReadAtScale(raw, spec, py);
  }

  /**
   * A display field can hold a zero that is refused: its text `0E5` denotes zero, but its exponent counts as integer
   * digits.
   */
  lemma ZeroWithExponentRefused(raw: seq<byte>, spec: ColumnSpec, py: Python)
    requires spec.kind == KDecimal && spec.field.usage == Display && spec.field.layout.scale == spec.targetScale == 0
    requires spec.codec.Decode(raw) == Ok("0E5")
    requires py.otherDecimal("0E5") == Some(Decimal(false, 0, 5)) && spec.targetPrecision <= 5
    ensures ConvertField(raw, spec, py) == Err(DecimalOverflow)
  {
    var text := "0E5";
    assert text[1] == 'E';
    assert DecimalOfText(text, py) == Some(Decimal(false, 0, 5));
  }

  // ---- all columns of a table ----

  /** One entry of the field map, with what the type map says of it. */
  datatype Entry = Entry(cobol: string, name: string, kind: Kind, isKey: bool, codec: Codec, ebcdic: bool,
                         target: ParsedTarget, ov: Override)

  /** `Copybook.field`: the first field with the name. */
  function FindField(fields: seq<Field>, name: string): (f: Option<Field>)
    ensures f.Some? ==> f.value in fields && f.value.name == name
    ensures f.None? <==> forall g :: g in fields ==> g.name != name
  {
    if fields == [] then None
    else if fields[0].name == name then Some(fields[0])
    else FindField(fields[1..], name)
  }

  function BuildEntry(book: Copybook, e: Entry): Result<ColumnSpec, SpecError> {
    match FindField(book.fields, e.cobol)
    case None => Err(UnknownField)
    case Some(f) => BuildColumn(e.name, f, e.kind, e.isKey, e.codec, e.ebcdic, e.target, e.ov)
  }

  /** The specs of the entries in order, or the first failure. */
  function BuildEntries(book: Copybook, entries: seq<Entry>): Result<seq<ColumnSpec>, SpecError> {
    if entries == [] then Ok([])
    else
      var done :- BuildEntries(book, entries[..|entries| - 1]);
      var spec :- BuildEntry(book, entries[|entries| - 1]);
      Ok(done + [spec])
  }

  predicate Mapped(f: Field, entries: seq<Entry>) { exists e :: e in entries && e.cobol == f.name }

  function Upper(name: string): (u: string)
    ensures |u| == |name|
  {
    seq(|name|, i requires 0 <= i < |name| => if 'a' <= name[i] <= 'z' then name[i] - 'a' + 'A' else name[i])
  }

  predicate IsFiller(f: Field) { Upper(f.name) == "FILLER" }

  /** Filler is recognised in any mixture of cases. */
  lemma FillerExactly(f: Field)
    ensures IsFiller(f) <==>
              && |f.name| == 6 && f.name[0] in {'F', 'f'} && f.name[1] in {'I', 'i'} && f.name[2] in {'L', 'l'}
              && f.name[3] in {'L', 'l'} && f.name[4] in {'E', 'e'} && f.name[5] in {'R', 'r'}
  {
    var u := Upper(f.name);
    if |f.name| == 6 { assert u == [u[0], u[1], u[2], u[3], u[4], u[5]]; }
  }

  predicate AllMapped(book: Copybook, entries: seq<Entry>) {
    forall f :: f in book.fields && !IsFiller(f) ==> Mapped(f, entries)
  }

  function BuiltSpecs(book: Copybook, entries: seq<Entry>): Result<seq<ColumnSpec>, SpecError> {
    if !AllMapped(book, entries) then Err(UnmappedFields) else BuildEntries(book, entries)
  }

  lemma {:induction false} BuildFailureStays(book: Copybook, entries: seq<Entry>, k: nat)
    requires k <= |entries| && BuildEntries(book, entries[..k]).Err?
    ensures BuildEntries(book, entries) == Err(BuildEntries(book, entries[..k]).error)
    decreases |entries| - k
  {
    if k == |entries| {
      assert entries[..k] == entries;
    } else {
      assert entries[..k + 1][..k] == entries[..k];
      BuildFailureStays(book, entries, k + 1);
    }
  }

  /** `build_column_specs`. */
  method BuildColumnSpecs(book: Copybook, entries: seq<Entry>) returns (r: Result<seq<ColumnSpec>, SpecError>)
    ensures r == BuiltSpecs(book, entries)
  {
    if exists f :: f in book.fields && !IsFiller(f) && !Mapped(f, entries) { return Err(UnmappedFields); }
    var specs: seq<ColumnSpec> := [];
    for i := 0 to |entries|
      invariant BuildEntries(book, entries[..i]) == Ok(specs)
    {
      assert entries[..i + 1][..i] == entries[..i];
      var spec := BuildEntry(book, entries[i]);
      if spec.Err? {
        BuildFailureStays(book, entries, i + 1);
        return Err(spec.error);
      }
      specs := specs + [spec.value];
    }
    assert entries[..|entries|] == entries;
    return Ok(specs);
  }

  /** The i-th spec is what the i-th entry builds. */
  lemma {:induction false} BuiltInOrder(book: Copybook, entries: seq<Entry>)
    ensures BuildEntries(book, entries).Ok? <==> forall e :: e in entries ==> BuildEntry(book, e).Ok?
    ensures BuildEntries(book, entries).Ok? ==>
              var specs := BuildEntries(book, entries).value;
              |specs| == |entries| && forall i :: 0 <= i < |specs| ==> BuildEntry(book, entries[i]) == Ok(specs[i])
  {
    if entries == [] {
    } else {
      var front, last := entries[..|entries| - 1], entries[|entries| - 1];
      assert entries == front + [last];
      BuiltInOrder(book, front);
    }
  }

  /** The field map has every copybook name once, and gives no column twice. */
  ghost predicate DistinctEntries(entries: seq<Entry>) {
    forall i, j :: 0 <= i < j < |entries| ==> entries[i].cobol != entries[j].cobol && entries[i].name != entries[j].name
  }

  lemma EntryBuilds(book: Copybook, e: Entry, spec: ColumnSpec)
    requires BuildEntry(book, e) == Ok(spec)
    ensures spec.field in book.fields && BuiltFrom(book, spec, e)
  {
    BuiltColumnsSound(e.name, FindField(book.fields, e.cobol).value, e.kind, e.isKey, e.codec, e.ebcdic, e.target, e.ov);
  }

  /** Fields that are not filler have different names. */
  ghost predicate NamesOnce(book: Copybook) {
    forall f, g :: f in book.fields && g in book.fields && !IsFiller(f) && f.name == g.name ==> f == g
  }

  /**
   * The specs that are built over a copybook are the columns of one table, so that reading undoes writing for them: the
   * i-th is the column of the i-th entry over the first field with its name. Every field that is not filler has a column
   * exactly when no two of them share a name.
   */
  lemma BuiltSpecsAreTable(book: Copybook, entries: seq<Entry>)
    requires Tiles(book.fields, book.recordLength) && DistinctEntries(entries)
    requires forall e :: e in entries ==> e.codec.Valid()
    requires BuiltSpecs(book, entries).Ok?
    ensures var specs := BuiltSpecs(book, entries).value;
            && TableSpecs(specs, book)
            && |specs| == |entries|
            && (forall i :: 0 <= i < |specs| ==> BuiltFrom(book, specs[i], entries[i]))
            && (AllCovered(book, specs) <==> NamesOnce(book))
  {
    var specs := BuiltSpecs(book, entries).value;
    BuiltInOrder(book, entries);
    forall i | 0 <= i < |specs|
      ensures BuiltFrom(book, specs[i], entries[i]) && specs[i].field in book.fields && specs[i].codec.Valid()
    {
      assert entries[i] in entries;
      EntryBuilds(book, entries[i], specs[i]);
    }
    Coverage(book, entries, specs);
  }

  /** The spec of an entry: its column, over the first field with the name it maps. */
  ghost predicate BuiltFrom(book: Copybook, spec: ColumnSpec, e: Entry) {
    && spec.name == e.name && Some(spec.field) == FindField(book.fields, e.cobol) && spec.field.name == e.cobol
    && spec.kind == e.kind && spec.isKey == e.isKey && spec.codec == e.codec && Sound(spec, e.target, e.ov)
  }

  /** Every field that is not filler has a column. */
  ghost predicate AllCovered(book: Copybook, specs: seq<ColumnSpec>) {
    forall f :: f in book.fields && !IsFiller(f) ==> exists s :: s in specs && s.field == f
  }

  lemma Coverage(book: Copybook, entries: seq<Entry>, specs: seq<ColumnSpec>)
    requires AllMapped(book, entries) && |specs| == |entries| && DistinctEntries(entries)
    requires forall i :: 0 <= i < |specs| ==> BuiltFrom(book, specs[i], entries[i])
    ensures AllCovered(book, specs) <==> NamesOnce(book)
  {
    if NamesOnce(book) {
      forall f | f in book.fields && !IsFiller(f)
        ensures exists s :: s in specs && s.field == f
      {
        var i := EntryOf(f, entries);
        assert specs[i] in specs && specs[i].field in book.fields && specs[i].field.name == f.name;
      }
    }
    if AllCovered(book, specs) {
      forall f, g | f in book.fields && g in book.fields && !IsFiller(f) && f.name == g.name
        ensures f == g
      {
        CoveredIsFirst(book, entries, specs, f);
        CoveredIsFirst(book, entries, specs, g);
      }
    }
  }

  lemma EntryOf(f: Field, entries: seq<Entry>) returns (i: nat)
    requires Mapped(f, entries)
    ensures i < |entries| && entries[i].cobol == f.name
  {
    var e :| e in entries && e.cobol == f.name;
    i :| 0 <= i < |entries| && entries[i] == e;
  }

  lemma CoveredIsFirst(book: Copybook, entries: seq<Entry>, specs: seq<ColumnSpec>, f: Field)
    requires AllCovered(book, specs) && f in book.fields && !IsFiller(f) && |specs| == |entries|
    requires forall i :: 0 <= i < |specs| ==> BuiltFrom(book, specs[i], entries[i])
    ensures FindField(book.fields, f.name) == Some(f)
  {
    var s :| s in specs && s.field == f;
    var i :| 0 <= i < |specs| && specs[i] == s;
    assert BuiltFrom(book, specs[i], entries[i]);
  }

  /** The build is refused exactly for a field that is unmapped, a name that is unknown, or a column that is refused. */
  lemma RefusedExactly(book: Copybook, entries: seq<Entry>)
    ensures BuiltSpecs(book, entries).Err? <==>
            || (exists f :: f in book.fields && !IsFiller(f) && !Mapped(f, entries))
            || (exists e :: e in entries && FindField(book.fields, e.cobol).None?)
            || (exists e :: e in entries && FindField(book.fields, e.cobol).Some? && BuildEntry(book, e).Err?)
  {
    BuiltInOrder(book, entries);
  }
}
