/**
 * Tables of character columns, timestamps and small integers, as the audit and the policy table are: the copybook, the
 * columns and the records of any such table, from one list of columns (migration/manifest.yaml, migration/source/seed).
 */
module TextTables {
  import opened ArchiveRecords
  import opened Bytes
  import opened Codecs
  import opened Convert
  import opened Copybook
  import opened Encode
  import opened Results
  import opened RoundTrip
  import opened SeedRecords
  import opened Tables
  import opened TypeMap

  // ---- the layout ----

  datatype Form = Chars | Time | Small

  /** A column: its names, its form and width, and whether the manifest trims it or consolidates its codes. */
  datatype Col = Col(cobol: string, name: string, form: Form, width: nat, trimmed: bool, consolidated: bool)

  const TIME_WIDTH := 32
  const SMALL_WIDTH := 2
  const SMALL_DIGITS := 4
  const TIME_DIGITS := 7

  /** Widths that the form allows; a retention class has four characters. */
  predicate IsCol(c: Col) {
    && c.width > 0 && (c.form == Time <==> c.width == TIME_WIDTH) && (c.form == Small ==> c.width == SMALL_WIDTH)
    && (c.consolidated ==> c.form == Chars && c.width == 4) && (c.trimmed ==> c.form == Chars)
  }

  function FieldAt(c: Col, offset: nat): (f: Field)
    ensures f.layout.length == c.width || c.form == Small
  {
    if c.form == Small then
      Field(c.cobol, Pic9(true, Some(SMALL_DIGITS), None), Comp, offset, Layout(SMALL_WIDTH, true, true, SMALL_DIGITS, 0))
    else
      Field(c.cobol, PicX(if c.width == 1 then None else Some(c.width)), Display, offset,
            Layout(c.width, false, false, 0, 0))
  }

  /** Where column `i` starts: after the widths of the columns before it. */
  function Offset(cols: seq<Col>, i: nat): nat
    requires i <= |cols|
  {
    if i == 0 then 0 else Offset(cols, i - 1) + cols[i - 1].width
  }

  const FILLER := "FILLER"

  function FillerAt(offset: nat, width: nat): Field {
    Field(FILLER, PicX(Some(width)), Display, offset, Layout(width, false, false, 0, 0))
  }

  function FieldOfTable(cols: seq<Col>, filler: nat, i: nat): Field
    requires i <= |cols|
  {
    if i == |cols| then FillerAt(Offset(cols, i), filler) else FieldAt(cols[i], Offset(cols, i))
  }

  function BookOf(cols: seq<Col>, filler: nat): (b: Copybook)
    ensures |b.fields| == |cols| + 1 && b.recordLength == Offset(cols, |cols|) + filler
    ensures forall i :: 0 <= i <= |cols| ==> b.fields[i] == FieldOfTable(cols, filler, i)
  {
    Copybook(seq(|cols| + 1, i requires 0 <= i < |cols| + 1 => FieldOfTable(cols, filler, i)), Offset(cols, |cols|) + filler)
  }

  ghost predicate AreCols(cols: seq<Col>) {
    && cols != [] && (forall i :: 0 <= i < |cols| ==> IsCol(cols[i]))
    && (forall i, j :: 0 <= i < j < |cols| ==> cols[i].name != cols[j].name && cols[i].cobol != cols[j].cobol)
    && (forall i :: 0 <= i < |cols| ==> Upper(cols[i].cobol) != FILLER)
  }

  lemma BookTiles(cols: seq<Col>, filler: nat)
    requires AreCols(cols)
    ensures Tiles(BookOf(cols, filler).fields, BookOf(cols, filler).recordLength)
  {
    var fields := BookOf(cols, filler).fields;
    forall i | 0 <= i < |fields|
      ensures WellFormed(fields[i]) && Laid(fields, i)
    {
      if i < |cols| { assert IsCol(cols[i]); }
      if i > 0 { assert IsCol(cols[i - 1]); }
    }
  }

  // ---- the columns ----

  function KindOfCol(c: Col): Kind {
    match c.form
    case Chars => KChar
    case Time => KTimestamp12
    case Small => KInt
  }

  function ArgumentOf(c: Col): nat {
    match c.form
    case Chars => c.width
    case Time => TIME_DIGITS
    case Small => 0
  }

  function SpecOfCol(c: Col, offset: nat, isKey: bool, ascii: Codec): ColumnSpec {
    ColumnSpec(c.name, FieldAt(c, offset), KindOfCol(c), isKey, ascii, false, c.trimmed,
               if c.consolidated then VALUE_MAP else map[], if c.form == Small then SMALLINT else OtherBase,
               ArgumentOf(c), 0, ArgumentOf(c))
  }

  function SpecsOf(cols: seq<Col>, ascii: Codec): (specs: seq<ColumnSpec>)
    ensures |specs| == |cols|
    ensures forall i :: 0 <= i < |cols| ==> specs[i] == SpecOfCol(cols[i], Offset(cols, i), i == 0, ascii)
  {
    seq(|cols|, i requires 0 <= i < |cols| => SpecOfCol(cols[i], Offset(cols, i), i == 0, ascii))
  }

  /** What the manifest and the type map say of a column; the first one is the key. */
  function EntryOfCol(c: Col, isKey: bool, ascii: Codec): Entry {
    Entry(c.cobol, c.name, KindOfCol(c), isKey, ascii, false,
          ParsedTarget(c.trimmed, if c.form == Small then SMALLINT else OtherBase, ArgumentOf(c), 0, ArgumentOf(c)),
          Override(if c.trimmed then Some(TrimRight) else None, None, if c.consolidated then VALUE_MAP else map[]))
  }

  function EntriesOf(cols: seq<Col>, ascii: Codec): (entries: seq<Entry>)
    ensures |entries| == |cols| && forall i :: 0 <= i < |cols| ==> entries[i] == EntryOfCol(cols[i], i == 0, ascii)
  {
    seq(|cols|, i requires 0 <= i < |cols| => EntryOfCol(cols[i], i == 0, ascii))
  }

  lemma ColBuilt(c: Col, offset: nat, isKey: bool, ascii: Codec)
    requires IsCol(c)
    ensures var e := EntryOfCol(c, isKey, ascii);
            BuildColumn(e.name, FieldAt(c, offset), e.kind, e.isKey, e.codec, e.ebcdic, e.target, e.ov) ==
            Ok(SpecOfCol(c, offset, isKey, ascii))
  {
  }

  lemma EntryOfColBuilt(cols: seq<Col>, filler: nat, ascii: Codec, i: nat)
    requires AreCols(cols) && i < |cols|
    ensures BuildEntry(BookOf(cols, filler), EntriesOf(cols, ascii)[i]) == Ok(SpecsOf(cols, ascii)[i])
  {
    var fields := BookOf(cols, filler).fields;
    forall j | 0 <= j < i
      ensures fields[j].name != fields[i].name
    {
      assert cols[j].cobol != cols[i].cobol;
    }
    FieldFound(fields, i);
    ColBuilt(cols[i], Offset(cols, i), i == 0, ascii);
  }

  /** The columns are what the type map builds over the copybook. */
  lemma SpecsBuilt(cols: seq<Col>, filler: nat, ascii: Codec)
    requires AreCols(cols)
    ensures BuiltSpecs(BookOf(cols, filler), EntriesOf(cols, ascii)) == Ok(SpecsOf(cols, ascii))
  {
    var book, entries := BookOf(cols, filler), EntriesOf(cols, ascii);
    forall i | 0 <= i < |cols|
      ensures BuildEntry(book, entries[i]) == Ok(SpecsOf(cols, ascii)[i])
    {
      EntryOfColBuilt(cols, filler, ascii, i);
    }
    ColumnsBuilt(book, entries, SpecsOf(cols, ascii));
    ColumnsMapped(cols, filler, ascii);
  }

  lemma ColumnsMapped(cols: seq<Col>, filler: nat, ascii: Codec)
    ensures AllMapped(BookOf(cols, filler), EntriesOf(cols, ascii))
  {
    var book, entries := BookOf(cols, filler), EntriesOf(cols, ascii);
    forall f | f in book.fields && !IsFiller(f)
      ensures Mapped(f, entries)
    {
      var i :| 0 <= i <= |cols| && book.fields[i] == f;
      FillerIsFiller();
      assert i < |cols| && entries[i] in entries;
    }
  }

  lemma FillerIsFiller()
    ensures Upper(FILLER) == FILLER
  {
  }

  /** The copybook of the fields is what its source text parses to. */
  lemma TextBookParses(cols: seq<Col>, filler: nat, lines: seq<string>, item: string -> Option<Item>)
    requires AreCols(cols) && Describes(lines, item, BookOf(cols, filler).fields)
    ensures Parse(lines, item, Some(BookOf(cols, filler).recordLength)) == Ok(BookOf(cols, filler))
  {
    BookTiles(cols, filler);
    CopybookParses(lines, item, BookOf(cols, filler));
  }

  lemma EntriesDistinct(cols: seq<Col>, ascii: Codec)
    requires AreCols(cols) && ascii.Valid()
    ensures DistinctEntries(EntriesOf(cols, ascii)) && forall e :: e in EntriesOf(cols, ascii) ==> e.codec.Valid()
  {
  }

  /** The columns are those of one table over the copybook, in the order of its fields. */
  lemma TextTable(cols: seq<Col>, filler: nat, ascii: Codec)
    requires AreCols(cols) && ascii.Valid()
    ensures LeadingColumns(SpecsOf(cols, ascii), BookOf(cols, filler))
    ensures TableSpecs(SpecsOf(cols, ascii), BookOf(cols, filler))
  {
    BookTiles(cols, filler);
    SpecsBuilt(cols, filler, ascii);
    EntriesDistinct(cols, ascii);
    BuiltSpecsAreTable(BookOf(cols, filler), EntriesOf(cols, ascii));
    ColumnsLead(cols, filler, ascii);
  }

  lemma ColumnsLead(cols: seq<Col>, filler: nat, ascii: Codec)
    ensures forall i :: 0 <= i < |cols| ==> SpecsOf(cols, ascii)[i].field == BookOf(cols, filler).fields[i]
  {
  }

  // ---- the rows ----

  const MOST_YEARS := 100

  /** What a row has in a column. */
  datatype Content = Words(text: string) | Count(n: nat)

  ghost predicate FitsCol(c: Col, v: Content) {
    match c.form
    case Chars => v.Words? && Short(v.text, c.width)
    case Time => v.Words? && IsTimestamp(v.text)
    case Small => v.Count? && v.n < MOST_YEARS
  }

  function ValueIn(v: Content): SourceValue { match v case Words(t) => SText(t) case Count(n) => SInt(n) }

  function PartIn(c: Col, v: Content, ascii: Codec): Part {
    match v
    case Words(t) => Text(t, c.width, ascii, ASCII_BLANK)
    case Count(n) => Binary(n, SMALL_WIDTH)
  }

  ghost predicate FitsTable(cols: seq<Col>, row: seq<Content>) {
    |cols| == |row| && forall i :: 0 <= i < |cols| ==> FitsCol(cols[i], row[i])
  }

  function ValuesIn(row: seq<Content>): (values: seq<SourceValue>)
    ensures |values| == |row| && forall i :: 0 <= i < |row| ==> values[i] == ValueIn(row[i])
  {
    seq(|row|, i requires 0 <= i < |row| => ValueIn(row[i]))
  }

  function PartsIn(cols: seq<Col>, row: seq<Content>, ascii: Codec): (parts: seq<Part>)
    requires |cols| == |row|
    ensures |parts| == |row| && forall i :: 0 <= i < |row| ==> parts[i] == PartIn(cols[i], row[i], ascii)
  {
    seq(|row|, i requires 0 <= i < |row| => PartIn(cols[i], row[i], ascii))
  }

  lemma SmallEmitted(n: nat)
    requires n < MOST_YEARS
    ensures Emitted(Binary(n, SMALL_WIDTH)).Some?
  {
    ByteWidths();
  }

  lemma ColStands(c: Col, v: Content, offset: nat, isKey: bool, ascii: Codec)
    requires IsCol(c) && FitsCol(c, v) && Prints(ascii, ASCII_BLANK)
    ensures StandsFor(PartIn(c, v, ascii), ValueIn(v), SpecOfCol(c, offset, isKey, ascii))
    ensures Emitted(PartIn(c, v, ascii)).Some?
  {
    match v {
      case Words(t) =>
        if c.form == Time { TimestampPrints(t); }
        PrintableEncodes(t, ascii, ASCII_BLANK);
        TextEmitted(t, c.width, ascii, ASCII_BLANK);
      case Count(n) => SmallEmitted(n);
    }
  }

  lemma ColAccepts(c: Col, v: Content, offset: nat, isKey: bool, ascii: Codec, py: Python)
    requires IsCol(c) && FitsCol(c, v)
    ensures Expected(Some(ValueIn(v)), SpecOfCol(c, offset, isKey, ascii), py).Ok?
  {
    var spec := SpecOfCol(c, offset, isKey, ascii);
    match c.form {
      case Chars =>
        if c.consolidated { CodesShort(c); }
        TextAccepted(v.text, spec, py);
      case Time => TimestampAccepted(v.text, spec, py);
      case Small =>
        YearsFit(spec, v.n);
        BinaryAccepted(v.n, spec, py);
    }
  }

  lemma CodesShort(c: Col)
    requires IsCol(c) && c.consolidated
    ensures forall k :: k in VALUE_MAP ==> |VALUE_MAP[k]| <= c.width
  {
    assert |"LGL7"| == 4 && |"FIN7"| == 4 && |"HRS7"| == 4;
  }

  lemma YearsFit(spec: ColumnSpec, n: nat)
    requires spec.targetBase == SMALLINT && n < MOST_YEARS
    ensures IntFits(n, spec)
  {
    TargetWidths();
  }

  /** The key of a row: the text of its first column, which fills its field. */
  ghost predicate KeyFills(cols: seq<Col>, row: seq<Content>) {
    |cols| == |row| > 0 && cols[0].form == Chars && row[0].Words? && |row[0].text| == cols[0].width
  }

  /** `record()` of a row: its parts, filled up with blanks. */
  function RecordIn(cols: seq<Col>, row: seq<Content>, lrecl: nat, ascii: Codec): seq<byte>
    requires |cols| == |row| && forall p :: p in PartsIn(cols, row, ascii) ==> Emitted(p).Some?
  {
    SeedRecord(PartsIn(cols, row, ascii), lrecl)
  }

  /** The record of a row has the length of the table's records, and the job reads its key and every column from it. */
  ghost predicate ReadsWhole(cols: seq<Col>, row: seq<Content>, key: string, lrecl: nat, ascii: Codec, py: Python) {
    var specs, values := SpecsOf(cols, ascii), ValuesIn(row);
    && |cols| == |row| && (forall p :: p in PartsIn(cols, row, ascii) ==> Emitted(p).Some?)
    && |RecordIn(cols, row, lrecl, ascii)| == lrecl
    && AcceptsUpTo(specs, values, py, |cols|)
    && ReadsAs(ConvertedRecord(RecordIn(cols, row, lrecl, ascii), specs, py), key, specs, values, py, |cols|)
  }

  lemma RowFits(cols: seq<Col>, row: seq<Content>, ascii: Codec, py: Python)
    requires AreCols(cols) && FitsTable(cols, row) && Prints(ascii, ASCII_BLANK)
    ensures PartsStand(PartsIn(cols, row, ascii), ValuesIn(row), SpecsOf(cols, ascii))
    ensures AcceptsUpTo(SpecsOf(cols, ascii), ValuesIn(row), py, |cols|)
  {
    var specs, values, parts := SpecsOf(cols, ascii), ValuesIn(row), PartsIn(cols, row, ascii);
    forall i | 0 <= i < |cols|
      ensures StandsFor(parts[i], values[i], specs[i]) && Emitted(parts[i]).Some?
      ensures Expected(Some(values[i]), specs[i], py).Ok?
    {
      ColStands(cols[i], row[i], Offset(cols, i), i == 0, ascii);
      ColAccepts(cols[i], row[i], Offset(cols, i), i == 0, ascii, py);
    }
  }

  lemma KeyFillsFirst(cols: seq<Col>, row: seq<Content>, ascii: Codec)
    requires KeyFills(cols, row)
    ensures KeyFirst(SpecsOf(cols, ascii), ValuesIn(row), row[0].text)
  {
    assert Offset(cols, 0) == 0;
  }

  /** Every row that fits is written whole and read back whole. */
  lemma TextRecordReads(cols: seq<Col>, filler: nat, row: seq<Content>, key: string, ascii: Codec, py: Python)
    requires AreCols(cols) && FitsTable(cols, row) && KeyFills(cols, row) && row[0].text == key
    requires Prints(ascii, ASCII_BLANK)
    ensures ReadsWhole(cols, row, key, BookOf(cols, filler).recordLength, ascii, py)
  {
    RowFits(cols, row, ascii, py);
    KeyFillsFirst(cols, row, ascii);
    TextTable(cols, filler, ascii);
    WholeRead(cols, row, BookOf(cols, filler), key, ascii, py);
  }

  lemma WholeRead(cols: seq<Col>, row: seq<Content>, book: Copybook, key: string, ascii: Codec, py: Python)
    requires LeadingColumns(SpecsOf(cols, ascii), book) && TableSpecs(SpecsOf(cols, ascii), book)
    requires |cols| == |row| && PartsStand(PartsIn(cols, row, ascii), ValuesIn(row), SpecsOf(cols, ascii))
    requires KeyFirst(SpecsOf(cols, ascii), ValuesIn(row), key)
    requires AcceptsUpTo(SpecsOf(cols, ascii), ValuesIn(row), py, |cols|)
    ensures ReadsWhole(cols, row, key, book.recordLength, ascii, py)
  {
    TableRecordReads(PartsIn(cols, row, ascii), ValuesIn(row), SpecsOf(cols, ascii), book, key, py, |cols|);
  }
}
