/**
 * The archive record, end to end: what the seed joins for a generated row (migration/source/seed/tables.py) over the
 * DOCARCH copybook converts to exactly the columns of the row (migration/job/ldm/convert.py).
 */
module ArchiveRecords {
  import opened Arith
  import Bits
  import opened Bytes
  import opened Calendar
  import opened Codecs
  import opened Cohorts
  import opened Convert
  import opened Copybook
  import opened Decimals
  import opened Digits
  import opened Encode
  import opened Mixer
  import opened Packed
  import opened Results
  import opened RoundTrip
  import opened SeedRecords
  import opened SeedRows
  import opened Tables
  import opened Timestamps
  import opened TypeMap

  // ---- the layout ----

  const COLUMNS := 14
  const FIELDS := 15
  const LRECL := 256

  function TextField(name: string, offset: nat, width: nat): Field {
    Field(name, PicX(Some(width)), Display, offset, Layout(width, false, false, 0, 0))
  }

  /** PIC S9(4) and S9(18) COMP. */
  function BinaryField(name: string, offset: nat, digits: nat, width: nat): Field {
    Field(name, Pic9(true, Some(digits), None), Comp, offset, Layout(width, true, true, digits, 0))
  }

  /** PIC S9(23)V9(8) COMP-3. */
  function PackedField(name: string, offset: nat): Field {
    Field(name, Pic9(true, Some(23), Some(Some(8))), Comp3, offset, Layout(16, true, true, 31, 8))
  }

  function FieldOf(i: nat): Field
    requires i < FIELDS
  {
    if i == 0 then TextField("DA-AKEY", 0, 16)
    else if i == 1 then TextField("DA-DOCI", 16, 36)
    else if i == 2 then BinaryField("DA-VSEQ", 52, 4, 2)
    else if i == 3 then TextField("DA-RCLS", 54, 4)
    else if i == 4 then TextField("DA-LACC", 58, 32)
    else if i == 5 then PackedField("DA-SCHG", 90)
    else if i == 6 then PackedField("DA-AMT2", 106)
    else if i == 7 then TextField("DA-TXT1", 122, 40)
    else if i == 8 then TextField("DA-DAT1", 162, 8)
    else if i == 9 then Field("DA-FLG1", PicX(None), Display, 170, Layout(1, false, false, 0, 0))
    else if i == 10 then TextField("DA-CD01", 171, 8)
    else if i == 11 then TextField("DA-HSH1", 179, 64)
    else if i == 12 then BinaryField("DA-CNT1", 243, 18, 8)
    else if i == 13 then TextField("DA-SRC", 251, 3)
    else TextField("FILLER", 254, 2)
  }

  function DocarchBook(): (b: Copybook)
    ensures |b.fields| == FIELDS && b.recordLength == LRECL
    ensures forall i :: 0 <= i < FIELDS ==> b.fields[i] == FieldOf(i)
  {
    Copybook(seq(FIELDS, i requires 0 <= i < FIELDS => FieldOf(i)), LRECL)
  }

  lemma FieldShape(i: nat)
    requires i < FIELDS
    ensures WellFormed(FieldOf(i))
    ensures FieldOf(i).offset == if i == 0 then 0 else FieldOf(i - 1).End()
    ensures FieldOf(i).layout.length > 0
  {
  }

  /** The fields lie end to end over the 256 bytes of the record. */
  lemma DocarchBookTiles()
    ensures Tiles(DocarchBook().fields, LRECL)
  {
    var fields := DocarchBook().fields;
    forall i | 0 <= i < FIELDS
      ensures Laid(fields, i) && WellFormed(fields[i])
    {
      FieldShape(i);
    }
  }

  /** The source text of the copybook parses to these fields. */
  lemma DocarchBookParses(lines: seq<string>, item: string -> Option<Item>)
    requires Describes(lines, item, DocarchBook().fields)
    ensures Parse(lines, item, Some(LRECL)) == Ok(DocarchBook())
  {
    DocarchBookTiles();
    CopybookParses(lines, item, DocarchBook());
  }

  // ---- the columns ----

  function ColumnName(i: nat): string
    requires i < COLUMNS
  {
    if i == 0 then "ARCH_KEY" else if i == 1 then "DOC_ID" else if i == 2 then "VERSION_NO"
    else if i == 3 then "RETENTION_CLASS" else if i == 4 then "LAST_ACCESS_TS" else if i == 5 then "STORAGE_CHARGE"
    else if i == 6 then "UNIT_RATE" else if i == 7 then "OWNER_NAME" else if i == 8 then "DISPOSITION_DT"
    else if i == 9 then "LEGAL_HOLD_FLAG" else if i == 10 then "CHECKSUM_ALG" else if i == 11 then "CONTENT_SHA256"
    else if i == 12 then "BYTE_SIZE" else "SOURCE_SYS"
  }

  /** The length of a name and its first letter, which together tell the columns apart. */
  function NameTag(i: nat): (nat, char)
    requires i < COLUMNS
  {
    if i == 0 then (8, 'A') else if i == 1 then (6, 'D') else if i == 2 then (10, 'V') else if i == 3 then (15, 'R')
    else if i == 4 then (14, 'L') else if i == 5 then (14, 'S') else if i == 6 then (9, 'U') else if i == 7 then (10, 'O')
    else if i == 8 then (14, 'D') else if i == 9 then (15, 'L') else if i == 10 then (12, 'C')
    else if i == 11 then (14, 'C') else if i == 12 then (9, 'B') else (10, 'S')
  }

  lemma NamesTagged(i: nat)
    requires i < COLUMNS
    ensures |ColumnName(i)| > 0 && (|ColumnName(i)|, ColumnName(i)[0]) == NameTag(i)
  {
  }

  lemma NamesDistinct(i: nat, j: nat)
    requires i < COLUMNS && j < COLUMNS
    ensures ColumnName(i) == ColumnName(j) <==> i == j
  {
    NamesTagged(i);
    NamesTagged(j);
  }

  /** The retired codes and what the manifest consolidates them to. */
  const VALUE_MAP: map<string, string> := map["F07R" := "LGL7", "L07R" := "FIN7", "H07R" := "HRS7"]

  function KindOf(i: nat): Kind {
    if i == 2 || i == 12 then KInt
    else if i == 4 then KTimestamp12
    else if i == 5 || i == 6 then KDecimal
    else if i == 8 then KDate8
    else KChar
  }

  predicate IsCp037(i: nat) { i == 7 || i == 8 }

  /** The first argument of the target type: a precision or a length. */
  function FirstArgument(i: nat): nat
    requires i < COLUMNS
  {
    if i == 5 then 31 else if i == 6 then 18 else if i == 4 then 7
    else if KindOf(i) == KChar then FieldOf(i).layout.length else 0
  }

  predicate IsTrimmed(i: nat) { i == 0 || i == 7 }

  function BaseOf(i: nat): TargetBase { if i == 2 then SMALLINT else if i == 12 then BIGINT else OtherBase }

  /** The spec that the manifest and the type map give column `i`. */
  function SpecOf(i: nat, ascii: Codec, cp037: Codec): ColumnSpec
    requires i < COLUMNS
  {
    var f := FieldOf(i);
    var precision := FirstArgument(i);
    ColumnSpec(
      ColumnName(i), f, KindOf(i), i == 0, if IsCp037(i) then cp037 else ascii, IsCp037(i), IsTrimmed(i),
      if i == 3 then VALUE_MAP else map[], BaseOf(i), precision, if i == 5 || i == 6 then 8 else 0, precision)
  }

  function DocarchSpecs(ascii: Codec, cp037: Codec): (specs: seq<ColumnSpec>)
    ensures |specs| == COLUMNS && forall i :: 0 <= i < COLUMNS ==> specs[i] == SpecOf(i, ascii, cp037)
  {
    seq(COLUMNS, i requires 0 <= i < COLUMNS => SpecOf(i, ascii, cp037))
  }

  /** What the manifest's field map and type overrides, and the type map, say of column `i`. */
  function EntryOf(i: nat, ascii: Codec, cp037: Codec): Entry
    requires i < COLUMNS
  {
    var n := FirstArgument(i);
    Entry(FieldOf(i).name, ColumnName(i), KindOf(i), i == 0, if IsCp037(i) then cp037 else ascii, IsCp037(i),
          ParsedTarget(IsTrimmed(i), BaseOf(i), n, if i == 5 || i == 6 then 8 else 0, n),
          Override(if IsTrimmed(i) then Some(TrimRight) else None, if i == 8 then Some(Yyyymmdd) else None,
                   if i == 3 then VALUE_MAP else map[]))
  }

  function DocarchEntries(ascii: Codec, cp037: Codec): (entries: seq<Entry>)
    ensures |entries| == COLUMNS && forall i :: 0 <= i < COLUMNS ==> entries[i] == EntryOf(i, ascii, cp037)
  {
    seq(COLUMNS, i requires 0 <= i < COLUMNS => EntryOf(i, ascii, cp037))
  }

  /** The first and the last letters that tell the field names apart. */
  function FieldTag(i: nat): (nat, char, char)
    requires i < FIELDS
  {
    if i == 0 then (7, 'A', 'Y') else if i == 1 then (7, 'D', 'I') else if i == 2 then (7, 'V', 'Q')
    else if i == 3 then (7, 'R', 'S') else if i == 4 then (7, 'L', 'C') else if i == 5 then (7, 'S', 'G')
    else if i == 6 then (7, 'A', '2') else if i == 7 then (7, 'T', '1') else if i == 8 then (7, 'D', '1')
    else if i == 9 then (7, 'F', '1') else if i == 10 then (7, 'C', '1') else if i == 11 then (7, 'H', '1')
    else if i == 12 then (7, 'C', '1') else if i == 13 then (6, 'S', 'C') else (6, 'L', 'R')
  }

  lemma FieldsTagged(i: nat)
    requires i < FIELDS
    ensures var name := FieldOf(i).name; |name| >= 6 && (|name|, name[3], name[|name| - 1]) == FieldTag(i)
  {
  }

  lemma FieldNamesDistinct(i: nat, j: nat)
    requires i < j < FIELDS
    ensures FieldOf(i).name != FieldOf(j).name
  {
    FieldsTagged(i);
    FieldsTagged(j);
    if i == 10 && j == 12 { assert "DA-CD01"[4] == 'D' && "DA-CNT1"[4] == 'N'; }
  }

  lemma EntryBuilt(i: nat, ascii: Codec, cp037: Codec)
    requires i < COLUMNS
    ensures BuildEntry(DocarchBook(), EntryOf(i, ascii, cp037)) == Ok(SpecOf(i, ascii, cp037))
  {
    var fields := DocarchBook().fields;
    forall j | 0 <= j < i
      ensures fields[j].name != fields[i].name
    {
      FieldNamesDistinct(j, i);
    }
    FieldFound(fields, i);
    ColumnBuilt(i, ascii, cp037);
  }

  lemma ColumnBuilt(i: nat, ascii: Codec, cp037: Codec)
    requires i < COLUMNS
    ensures var e := EntryOf(i, ascii, cp037);
            BuildColumn(e.name, FieldOf(i), e.kind, e.isKey, e.codec, e.ebcdic, e.target, e.ov) ==
            Ok(SpecOf(i, ascii, cp037))
  {
  }

  /** The columns are what the type map builds from the manifest. */
  lemma DocarchSpecsBuilt(ascii: Codec, cp037: Codec)
    ensures BuiltSpecs(DocarchBook(), DocarchEntries(ascii, cp037)) == Ok(DocarchSpecs(ascii, cp037))
  {
    var book, entries := DocarchBook(), DocarchEntries(ascii, cp037);
    forall i | 0 <= i < COLUMNS
      ensures BuildEntry(book, entries[i]) == Ok(DocarchSpecs(ascii, cp037)[i])
    {
      EntryBuilt(i, ascii, cp037);
    }
    ColumnsBuilt(book, entries, DocarchSpecs(ascii, cp037));
    forall f | f in book.fields && !IsFiller(f)
      ensures Mapped(f, entries)
    {
      var i :| 0 <= i < FIELDS && book.fields[i] == f;
      FillerLast();
      assert entries[i] in entries;
    }
  }

  lemma FillerLast()
    ensures IsFiller(FieldOf(COLUMNS))
  {
  }

  /** A codec that can write every printable character of ASCII, and its byte for a blank. */
  ghost predicate Prints(codec: Codec, blank: byte) {
    codec.Valid() && codec.encode[' '] == blank && forall c :: ' ' <= c <= '~' ==> c in codec.encode
  }

  const ASCII_BLANK: byte := 0x20
  const EBCDIC_BLANK: byte := 0x40

  ghost predicate Codes(ascii: Codec, cp037: Codec) { Prints(ascii, ASCII_BLANK) && Prints(cp037, EBCDIC_BLANK) }

  lemma DocarchTable(ascii: Codec, cp037: Codec)
    requires Codes(ascii, cp037)
    ensures var specs, book := DocarchSpecs(ascii, cp037), DocarchBook();
            LeadingColumns(specs, book) && TableSpecs(specs, book) && TextKeys(specs)
  {
    var specs, book := DocarchSpecs(ascii, cp037), DocarchBook();
    DocarchBookTiles();
    forall i, j | 0 <= i < j < |specs|
      ensures specs[i].name != specs[j].name && specs[i].field != specs[j].field
    {
      NamesDistinct(i, j);
      OffsetsDistinct(i, j);
    }
    forall s | s in specs
      ensures s.field in book.fields && s.codec.Valid() && (s.isKey ==> IsText(s.kind))
    {
      var i :| 0 <= i < |specs| && specs[i] == s;
      assert book.fields[i] == s.field;
    }
  }

  lemma OffsetsDistinct(i: nat, j: nat)
    requires i < j < FIELDS
    ensures FieldOf(i).offset < FieldOf(j).offset
    decreases j
  {
    FieldShape(j);
    FieldShape(j - 1);
    if i < j - 1 { OffsetsDistinct(i, j - 1); }
  }

  // ---- the row ----

  ghost predicate Printable(text: string) { forall i :: 0 <= i < |text| ==> ' ' <= text[i] <= '~' }

  lemma CodeTextPrints(c: Code)
    ensures |CodeText(c)| == 4 && Printable(CodeText(c))
  {
    CodeLetters(c);
  }

  const F_DOC_ID := 2
  const F_DOC_ID_LOW := 41
  const F_OWNER := 8
  const F_INITIAL := 43
  const F_SOURCE := 14

  const SURNAMES: seq<string> := [
    "ADAMS", "BROOKS", "CHEN", "DIAZ", "EVANS", "FOSTER", "GARCIA", "HUGHES",
    "IBRAHIM", "JONES", "KOWALSKI", "LOPEZ", "MURPHY", "NGUYEN", "OKAFOR", "PATEL"]

  const SOURCE_SYSTEMS: seq<string> := ["OWD", "OWF", "IMP"]

  const LONGEST_SURNAME := 8

  lemma SurnamePrints(k: nat)
    requires k < |SURNAMES|
    ensures |SURNAMES[k]| <= LONGEST_SURNAME && Printable(SURNAMES[k])
  {
  }

  lemma SourcePrints(k: nat)
    requires k < |SOURCE_SYSTEMS|
    ensures |SOURCE_SYSTEMS[k]| == 3 && Printable(SOURCE_SYSTEMS[k])
  {
  }

  /** Surname, comma, and an initial. */
  function Owner(s: Stream, index: nat): string {
    SURNAMES[Pick(s, index, F_OWNER, |SURNAMES|)] + (", " + ['A' + Pick(s, index, F_INITIAL, 26) as char, '.'])
  }

  lemma TailPrints(c: char)
    requires 'A' <= c <= 'Z'
    ensures |", " + [c, '.']| == 4 && Printable(", " + [c, '.'])
  {
    var tail := ", " + [c, '.'];
    assert tail[0] == ',' && tail[1] == ' ' && tail[2] == c && tail[3] == '.';
  }

  lemma BothPrint(a: string, b: string)
    requires Printable(a) && Printable(b)
    ensures Printable(a + b)
  {
  }

  lemma OwnerPrints(s: Stream, index: nat)
    ensures |Owner(s, index)| <= 40 && Printable(Owner(s, index))
  {
    var k, initial := Pick(s, index, F_OWNER, |SURNAMES|), 'A' + Pick(s, index, F_INITIAL, 26) as char;
    SurnamePrints(k);
    TailPrints(initial);
    BothPrint(SURNAMES[k], ", " + [initial, '.']);
  }

  /** The two texts that are computed outside this model: an identifier and a digest. */
  datatype Digests = Digests(uuid: (nat, nat) -> string, sha256: string -> string)

  /** Their formats: 36 and 64 printable characters. */
  ghost predicate WellFormedDigests(d: Digests) {
    && (forall hi, lo :: |d.uuid(hi, lo)| == 36 && Printable(d.uuid(hi, lo)))
    && (forall t :: |d.sha256(t)| == 64 && Printable(d.sha256(t)))
  }

  /** A row as `docarch_base` draws it, with the columns that are text alone. */
  datatype Drawn = Drawn(row: DocarchRow, docId: string, lastAccess: string, owner: string, disposition: string,
                         sha256: string, sourceSys: string)

  function OrBlank(t: Option<string>): string { if t.Some? then t.value else "" }

  function Draw(s: Stream, index: nat, key: string, c: Cohort, d: Digests): Drawn {
    var row := DocarchBase(s, index, key, c);
    Drawn(row, d.uuid(H(s, index, F_DOC_ID), H(s, index, F_DOC_ID_LOW)), OrBlank(row.LastAccessTs()), Owner(s, index),
          OrBlank(row.dispositionDt), d.sha256(key), SOURCE_SYSTEMS[Pick(s, index, F_SOURCE, |SOURCE_SYSTEMS|)])
  }

  /** The text of a text column. */
  function TextOf(i: nat, d: Drawn): string {
    if i == 0 then d.row.archKey
    else if i == 1 then d.docId
    else if i == 3 then CodeText(d.row.retentionClass)
    else if i == 4 then d.lastAccess
    else if i == 7 then d.owner
    else if i == 8 then d.disposition
    else if i == 9 then if d.row.legalHold then "Y" else "N"
    else if i == 10 then "SHA256"
    else if i == 11 then d.sha256
    else d.sourceSys
  }

  function ValueOf(i: nat, d: Drawn): SourceValue {
    if i == 2 then SInt(d.row.versionNo)
    else if i == 12 then SInt(d.row.byteSize)
    else if i == 5 then SDec(Scaled(d.row.storageCharge, DECIMAL_SCALE))
    else if i == 6 then SDec(Scaled(d.row.unitRate, DECIMAL_SCALE))
    else SText(TextOf(i, d))
  }

  function ValuesOf(d: Drawn): (values: seq<SourceValue>)
    ensures |values| == COLUMNS && forall i :: 0 <= i < COLUMNS ==> values[i] == ValueOf(i, d)
  {
    seq(COLUMNS, i requires 0 <= i < COLUMNS => ValueOf(i, d))
  }

  /** The columns by name, and what each of them holds. */
  lemma ColumnsByName(d: Drawn, i: nat)
    requires i < 14
    ensures ColumnName(i) ==
            ["ARCH_KEY", "DOC_ID", "VERSION_NO", "RETENTION_CLASS", "LAST_ACCESS_TS", "STORAGE_CHARGE", "UNIT_RATE",
             "OWNER_NAME", "DISPOSITION_DT", "LEGAL_HOLD_FLAG", "CHECKSUM_ALG", "CONTENT_SHA256", "BYTE_SIZE",
             "SOURCE_SYS"][i]
    ensures ValueOf(i, d) ==
            [SText(d.row.archKey), SText(d.docId), SInt(d.row.versionNo), SText(CodeText(d.row.retentionClass)),
             SText(d.lastAccess), SDec(Decimal(false, d.row.storageCharge, Neg(8))),
             SDec(Decimal(false, d.row.unitRate, Neg(8))), SText(d.owner), SText(d.disposition),
             SText(if d.row.legalHold then "Y" else "N"), SText("SHA256"), SText(d.sha256), SInt(d.row.byteSize),
             SText(d.sourceSys)][i]
  {
  }

  /** The surnames begin with the first sixteen letters, in order. */
  lemma SurnamesInOrder(k: nat)
    requires k < 16
    ensures |SURNAMES| == 16 && SURNAMES[k] != "" && SURNAMES[k][0] == "ABCDEFGHIJKLMNOP"[k]
  {
  }

  /** How the text columns are drawn, each with its own field numbers. */
  lemma TextsDrawn(s: Stream, index: nat, key: string, c: Cohort, g: Digests)
    ensures var d := Draw(s, index, key, c, g);
            && d.row == DocarchBase(s, index, key, c)
            && d.docId == g.uuid(H(s, index, 2), H(s, index, 41)) && d.sha256 == g.sha256(key)
            && d.owner == SURNAMES[Pick(s, index, 8, 16)] + (", " + ['A' + Pick(s, index, 43, 26) as char, '.'])
            && d.sourceSys == ["OWD", "OWF", "IMP"][Pick(s, index, 14, 3)]
            && (d.row.LastAccessTs().Some? ==> Some(d.lastAccess) == d.row.LastAccessTs())
            && (d.row.dispositionDt.Some? ==> Some(d.disposition) == d.row.dispositionDt)
  {
  }

  /** The argument of the join in `record()` for column `i`. */
  function PartOf(i: nat, d: Drawn, ascii: Codec, cp037: Codec): Part
    requires i < COLUMNS
  {
    if i == 2 then Binary(d.row.versionNo, 2)
    else if i == 12 then Binary(d.row.byteSize, 8)
    else if i == 5 then Charge31(d.row.storageCharge)
    else if i == 6 then Charge31(d.row.unitRate)
    else if IsCp037(i) then Text(TextOf(i, d), FieldOf(i).layout.length, cp037, EBCDIC_BLANK)
    else Text(TextOf(i, d), FieldOf(i).layout.length, ascii, ASCII_BLANK)
  }

  /** The arguments of the join in `DocarchRow.record`, without the filler. */
  function DocarchParts(d: Drawn, ascii: Codec, cp037: Codec): (parts: seq<Part>)
    ensures |parts| == COLUMNS && forall i :: 0 <= i < COLUMNS ==> parts[i] == PartOf(i, d, ascii, cp037)
  {
    seq(COLUMNS, i requires 0 <= i < COLUMNS => PartOf(i, d, ascii, cp037))
  }

  lemma PartStands(i: nat, d: Drawn, ascii: Codec, cp037: Codec)
    requires i < COLUMNS && Codes(ascii, cp037)
    ensures StandsFor(PartOf(i, d, ascii, cp037), ValueOf(i, d), SpecOf(i, ascii, cp037))
  {
  }

  // ---- acceptable values are accepted ----

  lemma {:induction false} PrintableHasNoControls(text: string, from: nat)
    requires Printable(text)
    ensures FirstControl(text, from) == None
    decreases |text| - from
  {
    if from >= |text| {
    } else {
      PrintableHasNoControls(text, from + 1);
    }
  }

  lemma MappedFits(text: string, spec: ColumnSpec, width: nat)
    requires |text| == width && forall k :: k in spec.valueMap ==> |spec.valueMap[k]| <= width
    ensures |MappedText(text, spec)| <= width
  {
  }

  /** Printable text that is no longer than its column is accepted. */
  lemma TextAccepted(text: string, spec: ColumnSpec, py: Python)
    requires spec.kind == KChar && !spec.field.layout.isNumeric && spec.targetLength == spec.field.layout.length
    requires Printable(text) && |text| <= spec.field.layout.length
    requires forall k :: k in spec.valueMap ==> |spec.valueMap[k]| <= spec.field.layout.length
    ensures Expected(Some(SText(text)), spec, py).Ok?
  {
    var padded := Ljust(text, spec.field.layout.length);
    assert forall i :: 0 <= i < |padded| ==> padded[i] == if i < |text| then text[i] else ' ';
    PrintableHasNoControls(padded, 0);
    MappedFits(padded, spec, spec.field.layout.length);
  }

  predicate IsTextColumn(i: nat) { i == 0 || i == 1 || i == 3 || i == 7 || 9 <= i <= 11 || i == 13 }

  /** The timestamp of every row is canonical TIMESTAMP(12) text. */
  lemma DrawnTimestamp(s: Stream, index: nat, key: string, c: Cohort)
    ensures IsTimestamp(OrBlank(DocarchBase(s, index, key, c).LastAccessTs()))
  {
    var row := DocarchBase(s, index, key, c);
    BaseRanges(s, index, key, c);
    TimeGmOfGmTime(row.lastAccessSecs);
    CanonicalIsAccepted(GmTime(row.lastAccessSecs).value, row.lastAccessFrac);
  }

  lemma DateDigits(d: Date)
    requires ValidDate(d)
    ensures var t := Date8Text(d);
            && |t| == 8 && AllDigits(t)
            && t[0..4] == Padded(d.year, 4) && t[4..6] == Padded(d.month, 2) && t[6..8] == Padded(d.day, 2)
  {
    Widths();
    FieldWidth(d.year, 4);
    FieldWidth(d.month, 2);
    FieldWidth(d.day, 2);
  }

  /** The text of a calendar date is read as that date. */
  lemma DateIsRead(d: Date)
    requires ValidDate(d)
    ensures |Date8Text(d)| == 8 && AllDigits(Date8Text(d)) && ParseDate8(Date8Text(d)) == Some(d)
  {
    DateDigits(d);
    ValueOfPadded(d.year, 4);
    ValueOfPadded(d.month, 2);
    ValueOfPadded(d.day, 2);
  }

  lemma DrawnDate(s: Stream, index: nat, key: string, c: Cohort)
    ensures IsDate8(OrBlank(DocarchBase(s, index, key, c).dispositionDt))
  {
    var row := DocarchBase(s, index, key, c);
    DispositionIsRealDate(s, index, key, c);
    DateIsRead(YearsLater(GmTime(row.lastAccessSecs).value.date, RetentionYears(row.retentionClass)));
  }

  /** A text as a text column takes it. */
  ghost predicate Short(text: string, width: nat) { |text| <= width && Printable(text) }

  ghost predicate IsTimestamp(t: string) { |t| == 32 && TimestampShape(t) && ParseTimestamp12(t).Some? }

  ghost predicate IsDate8(t: string) { |t| == 8 && AllDigits(t) && ParseDate8(t).Some? }

  const MOST_VERSIONS := 10
  const MOST_BYTES := 50_001_024
  const MOST_RATE := 100_000
  const RATE_DIGITS := 18

  /** What column `i` of the job accepts. */
  ghost predicate Acceptable(d: Drawn, i: nat)
    requires i < COLUMNS
  {
    if i == 2 then d.row.versionNo < MOST_VERSIONS
    else if i == 12 then d.row.byteSize < MOST_BYTES
    else if i == 5 then d.row.storageCharge < Pow10(DECIMAL_WIDTH)
    else if i == 6 then d.row.unitRate < Pow10(RATE_DIGITS)
    else if i == 4 then IsTimestamp(d.lastAccess)
    else if i == 8 then IsDate8(d.disposition)
    else Short(TextOf(i, d), FieldOf(i).layout.length)
  }

  function CodecOf(i: nat, ascii: Codec, cp037: Codec): Codec { if IsCp037(i) then cp037 else ascii }

  /** What part `i` of the seed can write. */
  ghost predicate Emittable(d: Drawn, i: nat, ascii: Codec, cp037: Codec)
    requires i < COLUMNS
  {
    if i == 2 then d.row.versionNo < MOST_VERSIONS
    else if i == 12 then d.row.byteSize < MOST_BYTES
    else if i == 5 then d.row.storageCharge < Pow10(DECIMAL_WIDTH)
    else if i == 6 then d.row.unitRate < Pow10(DECIMAL_WIDTH)
    else |TextOf(i, d)| <= FieldOf(i).layout.length && Encodable(TextOf(i, d), CodecOf(i, ascii, cp037))
  }

  // ---- what a drawn row guarantees ----

  /** The texts of a drawn row. */
  ghost predicate TextsPrint(d: Drawn) {
    && Short(d.row.archKey, 16) && |d.row.archKey| == 16 && Short(d.docId, 36) && Short(d.owner, 40)
    && Short(d.sha256, 64) && Short(d.sourceSys, 3)
  }

  /** Timestamp and date are text that the job accepts. */
  ghost predicate TimesRead(d: Drawn) { IsTimestamp(d.lastAccess) && IsDate8(d.disposition) }

  predicate NumbersSmall(row: DocarchRow) {
    && row.versionNo < MOST_VERSIONS && row.byteSize < MOST_BYTES && row.unitRate < MOST_RATE
    && row.storageCharge == Charge(row.byteSize, row.unitRate)
  }

  lemma DrawnTexts(s: Stream, index: nat, key: string, c: Cohort, g: Digests)
    requires WellFormedDigests(g) && |key| == 16 && Printable(key)
    ensures TextsPrint(Draw(s, index, key, c, g))
  {
    OwnerPrints(s, index);
    SourcePrints(Pick(s, index, F_SOURCE, |SOURCE_SYSTEMS|));
  }

  lemma DrawnTimes(s: Stream, index: nat, key: string, c: Cohort, g: Digests)
    ensures TimesRead(Draw(s, index, key, c, g))
  {
    DrawnTimestamp(s, index, key, c);
    DrawnDate(s, index, key, c);
  }

  lemma DrawnNumbers(s: Stream, index: nat, key: string, c: Cohort)
    ensures NumbersSmall(DocarchBase(s, index, key, c))
  {
  }

  lemma WordPrints(hold: bool)
    ensures Short(if hold then "Y" else "N", 1) && Short("SHA256", 8)
  {
  }

  lemma TextsFit(d: Drawn, i: nat)
    requires i < COLUMNS && IsTextColumn(i) && TextsPrint(d)
    ensures Short(TextOf(i, d), FieldOf(i).layout.length)
  {
    CodeTextPrints(d.row.retentionClass);
    WordPrints(d.row.legalHold);
  }

  lemma ValueMapShort(i: nat, ascii: Codec, cp037: Codec)
    requires i < COLUMNS
    ensures forall k :: k in SpecOf(i, ascii, cp037).valueMap ==>
              i == 3 && |SpecOf(i, ascii, cp037).valueMap[k]| <= 4
  {
    assert |"LGL7"| == 4 && |"FIN7"| == 4 && |"HRS7"| == 4;
  }

  lemma TextColumn(d: Drawn, i: nat, ascii: Codec, cp037: Codec, py: Python)
    requires i < COLUMNS && IsTextColumn(i) && Acceptable(d, i)
    ensures Expected(Some(ValueOf(i, d)), SpecOf(i, ascii, cp037), py).Ok?
  {
    ValueMapShort(i, ascii, cp037);
    TextAccepted(TextOf(i, d), SpecOf(i, ascii, cp037), py);
  }

  lemma ChargeBound(byteSize: nat, unitRate: nat)
    requires byteSize < MOST_BYTES && unitRate < MOST_RATE
    ensures 0 <= Charge(byteSize, unitRate) <= MOST_BYTES * MOST_RATE
  {
    MulLess(byteSize, MOST_BYTES, unitRate);
    MulLess(unitRate, MOST_RATE, MOST_BYTES);
    MulEqual(MOST_BYTES, MOST_BYTES, unitRate);
  }

  const CHARGE_DIGITS := 13

  lemma PowersCover()
    ensures MOST_BYTES * MOST_RATE < Pow10(DECIMAL_WIDTH)
    ensures MOST_RATE < Pow10(RATE_DIGITS) <= Pow10(DECIMAL_WIDTH)
  {
    assert Pow10(4) == 10_000;
    Pow10Add(4, 4);
    Pow10Add(8, 5);
    assert Pow10(5) == 100_000;
    Pow10Monotone(CHARGE_DIGITS, DECIMAL_WIDTH);
    Pow10Monotone(CHARGE_DIGITS, RATE_DIGITS);
    Pow10Monotone(RATE_DIGITS, DECIMAL_WIDTH);
  }

  lemma ByteWidths()
    ensures Pow256(2) == 65_536 && 2 * MOST_BYTES < Pow256(8)
  {
    assert Pow256(4) == 256 * 256 * 256 * 256;
    assert Pow256(8) == 256 * (256 * (256 * (256 * Pow256(4))));
  }

  /** A number scaled by 10^8 is accepted by a packed column that has room for its digits. */
  lemma ScaledAccepted(scaled: nat, spec: ColumnSpec, precision: nat, py: Python)
    requires PackedColumn(spec, precision) && scaled < Pow10(precision)
    ensures Expected(Some(SDec(Scaled(scaled, DECIMAL_SCALE))), spec, py).Ok?
  {
    var v := Scaled(scaled, DECIMAL_SCALE);
    RoundedCoeffAtScale(v, DECIMAL_SCALE);
    assert Pow10(0) == 1;
    DecimalFitsFixedPoint(v, spec.targetPrecision, spec.targetScale);
  }

  lemma ChargesSmall(row: DocarchRow)
    requires NumbersSmall(row)
    ensures row.storageCharge < Pow10(DECIMAL_WIDTH) && row.unitRate < Pow10(RATE_DIGITS) <= Pow10(DECIMAL_WIDTH)
  {
    PowersCover();
    ChargeBound(row.byteSize, row.unitRate);
  }

  predicate PackedColumn(spec: ColumnSpec, precision: nat) {
    && spec.kind == KDecimal && spec.field.usage == Comp3 && spec.field.layout.isNumeric
    && spec.field.layout.scale == spec.targetScale == DECIMAL_SCALE < spec.targetPrecision == precision
  }

  lemma PackedColumns(i: nat, ascii: Codec, cp037: Codec)
    requires i == 5 || i == 6
    ensures PackedColumn(SpecOf(i, ascii, cp037), if i == 5 then DECIMAL_WIDTH else RATE_DIGITS)
  {
  }

  lemma ChargeColumn(d: Drawn, i: nat, ascii: Codec, cp037: Codec, py: Python)
    requires (i == 5 || i == 6) && Acceptable(d, i)
    ensures Expected(Some(ValueOf(i, d)), SpecOf(i, ascii, cp037), py).Ok?
  {
    PackedColumns(i, ascii, cp037);
    ScaledAccepted(if i == 5 then d.row.storageCharge else d.row.unitRate, SpecOf(i, ascii, cp037),
                   if i == 5 then DECIMAL_WIDTH else RATE_DIGITS, py);
  }

  lemma NumberColumn(d: Drawn, i: nat, ascii: Codec, cp037: Codec, py: Python)
    requires (i == 2 || i == 5 || i == 6 || i == 12) && Acceptable(d, i)
    ensures Expected(Some(ValueOf(i, d)), SpecOf(i, ascii, cp037), py).Ok?
  {
    if i == 5 || i == 6 { ChargeColumn(d, i, ascii, cp037, py); } else { IntegerAccepted(i, d, ascii, cp037, py); }
  }

  lemma TargetWidths()
    ensures Bits.Pow2(15) == 32_768 && MOST_BYTES < Bits.Pow2(63)
  {
    assert Bits.Pow2(5) == 32;
    assert Bits.Pow2(10) == 1024;
    assert Bits.Pow2(20) == 1024 * 1024;
    assert Bits.Pow2(30) == 1024 * 1024 * 1024;
    Pow2Grows(30, 63);
  }

  lemma {:induction false} Pow2Grows(a: nat, b: nat)
    requires a <= b
    ensures Bits.Pow2(a) <= Bits.Pow2(b)
    decreases b
  {
    if a == b {
    } else {
      Pow2Grows(a, b - 1);
    }
  }

  lemma IntegerAccepted(i: nat, d: Drawn, ascii: Codec, cp037: Codec, py: Python)
    requires (i == 2 || i == 12) && Acceptable(d, i)
    ensures Expected(Some(ValueOf(i, d)), SpecOf(i, ascii, cp037), py).Ok?
  {
    SmallFit(SpecOf(2, ascii, cp037), d.row.versionNo);
    BytesFit(SpecOf(12, ascii, cp037), d.row.byteSize);
    if i == 2 {
      BinaryAccepted(d.row.versionNo, SpecOf(2, ascii, cp037), py);
    } else {
      BinaryAccepted(d.row.byteSize, SpecOf(12, ascii, cp037), py);
    }
  }

  lemma SmallFit(spec: ColumnSpec, n: nat)
    requires spec.targetBase == SMALLINT
    ensures n < MOST_VERSIONS ==> IntFits(n, spec)
  {
    TargetWidths();
  }

  lemma BytesFit(spec: ColumnSpec, n: nat)
    requires spec.targetBase == BIGINT
    ensures n < MOST_BYTES ==> IntFits(n, spec)
  {
    TargetWidths();
  }

  lemma BinaryAccepted(n: int, spec: ColumnSpec, py: Python)
    requires spec.kind == KInt && spec.field.usage == Comp && spec.field.layout.isNumeric && IntFits(n, spec)
    ensures Expected(Some(SInt(n)), spec, py) == Ok((VInt(n), VInt(n)))
  {
    ExpectedNumber(Some(SInt(n)), n, spec, py);
  }

  lemma TimestampAccepted(text: string, spec: ColumnSpec, py: Python)
    requires spec.kind == KTimestamp12 && !spec.field.layout.isNumeric && spec.field.layout.length == 32 && IsTimestamp(text)
    ensures Expected(Some(SText(text)), spec, py).Ok?
  {
  }

  lemma DateAccepted(text: string, spec: ColumnSpec, py: Python)
    requires spec.kind == KDate8 && !spec.field.layout.isNumeric && spec.field.layout.length == 8 && IsDate8(text)
    ensures Expected(Some(SText(text)), spec, py).Ok?
  {
  }

  lemma TimeColumn(d: Drawn, i: nat, ascii: Codec, cp037: Codec, py: Python)
    requires (i == 4 || i == 8) && Acceptable(d, i)
    ensures Expected(Some(ValueOf(i, d)), SpecOf(i, ascii, cp037), py).Ok?
  {
    if i == 4 {
      TimestampAccepted(d.lastAccess, SpecOf(4, ascii, cp037), py);
    } else {
      DateAccepted(d.disposition, SpecOf(8, ascii, cp037), py);
    }
  }

  /** An acceptable value is accepted by its column. */
  lemma ColumnAccepts(d: Drawn, i: nat, ascii: Codec, cp037: Codec, py: Python)
    requires i < COLUMNS && Acceptable(d, i)
    ensures Expected(Some(ValueOf(i, d)), SpecOf(i, ascii, cp037), py).Ok?
  {
    if IsTextColumn(i) {
      TextColumn(d, i, ascii, cp037, py);
    } else if i == 4 || i == 8 {
      TimeColumn(d, i, ascii, cp037, py);
    } else {
      NumberColumn(d, i, ascii, cp037, py);
    }
  }

  // ---- acceptable values are written ----

  lemma TextEmitted(text: string, width: nat, codec: Codec, blank: byte)
    requires |text| <= width && Encodable(text, codec)
    ensures Emitted(Text(text, width, codec, blank)).Some?
  {
    codec.EncodeCharwise(text);
  }

  lemma DigitsPrint(text: string)
    requires AllDigits(text)
    ensures Printable(text)
  {
  }

  lemma TimestampPrints(text: string)
    requires TimestampShape(text)
    ensures Printable(text)
  {
    forall i | 0 <= i < 32
      ensures IsDigit(text[i]) || text[i] == '-' || text[i] == '.'
    {
    }
  }

  lemma PrintableEncodes(text: string, codec: Codec, blank: byte)
    requires Prints(codec, blank) && Printable(text)
    ensures Encodable(text, codec)
  {
  }

  lemma TextPrints(d: Drawn, i: nat)
    requires i < COLUMNS && i != 2 && i != 5 && i != 6 && i != 12 && Acceptable(d, i)
    ensures Short(TextOf(i, d), FieldOf(i).layout.length)
  {
    if i == 4 {
      TimestampPrints(d.lastAccess);
    } else if i == 8 {
      DigitsPrint(d.disposition);
    }
  }

  lemma RateDigits()
    ensures Pow10(RATE_DIGITS) <= Pow10(DECIMAL_WIDTH)
  {
    Pow10Monotone(RATE_DIGITS, DECIMAL_WIDTH);
  }

  lemma AcceptableIsEmittable(d: Drawn, i: nat, ascii: Codec, cp037: Codec)
    requires i < COLUMNS && Codes(ascii, cp037) && Acceptable(d, i)
    ensures Emittable(d, i, ascii, cp037)
  {
    if i == 6 {
      RateDigits();
    } else if i != 2 && i != 5 && i != 12 {
      TextPrints(d, i);
      PrintableEncodes(TextOf(i, d), CodecOf(i, ascii, cp037), if IsCp037(i) then EBCDIC_BLANK else ASCII_BLANK);
    }
  }

  lemma BinaryFits(value: nat, width: nat)
    requires 2 * value < Pow256(width)
    ensures Emitted(Binary(value, width)).Some?
  {
  }

  lemma ChargeFits(scaled: nat)
    requires scaled < Pow10(DECIMAL_WIDTH)
    ensures Emitted(Charge31(scaled)).Some?
  {
    WritersAgree(scaled);
  }

  /** The writer refuses no part that it can write. */
  lemma PartEmitted(d: Drawn, i: nat, ascii: Codec, cp037: Codec)
    requires i < COLUMNS && Emittable(d, i, ascii, cp037)
    ensures Emitted(PartOf(i, d, ascii, cp037)).Some?
  {
    ByteWidths();
    if i == 2 {
      BinaryFits(d.row.versionNo, 2);
    } else if i == 12 {
      BinaryFits(d.row.byteSize, 8);
    } else if i == 5 {
      ChargeFits(d.row.storageCharge);
    } else if i == 6 {
      ChargeFits(d.row.unitRate);
    } else {
      TextEmitted(TextOf(i, d), FieldOf(i).layout.length, CodecOf(i, ascii, cp037),
                  if IsCp037(i) then EBCDIC_BLANK else ASCII_BLANK);
    }
  }

  // ---- the record of a row ----

  ghost predicate AllEmittable(d: Drawn, ascii: Codec, cp037: Codec) {
    forall i: nat :: i < COLUMNS ==> Emittable(d, i, ascii, cp037)
  }

  lemma PartsEmitted(d: Drawn, ascii: Codec, cp037: Codec)
    requires AllEmittable(d, ascii, cp037)
    ensures forall p :: p in DocarchParts(d, ascii, cp037) ==> Emitted(p).Some?
  {
    forall i: nat | i < COLUMNS
      ensures Emitted(DocarchParts(d, ascii, cp037)[i]).Some?
    {
      PartEmitted(d, i, ascii, cp037);
    }
  }

  /** `record()`. */
  function RecordOf(d: Drawn, ascii: Codec, cp037: Codec): seq<byte>
    requires AllEmittable(d, ascii, cp037)
  {
    PartsEmitted(d, ascii, cp037);
    SeedRecord(DocarchParts(d, ascii, cp037), LRECL)
  }

  lemma ArchiveStands(d: Drawn, ascii: Codec, cp037: Codec)
    requires Codes(ascii, cp037) && AllEmittable(d, ascii, cp037)
    ensures PartsStand(DocarchParts(d, ascii, cp037), ValuesOf(d), DocarchSpecs(ascii, cp037))
  {
    var parts := DocarchParts(d, ascii, cp037);
    forall i: nat | i < COLUMNS
      ensures StandsFor(parts[i], ValuesOf(d)[i], DocarchSpecs(ascii, cp037)[i]) && Emitted(parts[i]).Some?
    {
      PartStands(i, d, ascii, cp037);
      PartEmitted(d, i, ascii, cp037);
    }
  }

  lemma OneKey(i: nat, ascii: Codec, cp037: Codec)
    requires i < COLUMNS
    ensures SpecOf(i, ascii, cp037).isKey <==> i == 0
    ensures i == 0 ==> SpecOf(i, ascii, cp037).field.layout.length == 16 && !SpecOf(i, ascii, cp037).field.layout.isNumeric
  {
  }

  lemma KeyIsFirst(d: Drawn, ascii: Codec, cp037: Codec)
    requires |d.row.archKey| == 16
    ensures KeyFirst(DocarchSpecs(ascii, cp037), ValuesOf(d), d.row.archKey)
  {
    var specs := DocarchSpecs(ascii, cp037);
    forall i | 0 <= i < |specs|
      ensures specs[i].isKey <==> i == 0
    {
      OneKey(i, ascii, cp037);
    }
    OneKey(0, ascii, cp037);
    assert ValueOf(0, d) == SText(d.row.archKey);
  }

  /**
   * The record of a row that can be written has 256 bytes, and the job reads from it the key and the columns up to the
   * first that it rejects.
   */
  lemma ArchiveRecordReads(d: Drawn, ascii: Codec, cp037: Codec, py: Python, n: nat)
    requires Codes(ascii, cp037) && AllEmittable(d, ascii, cp037) && |d.row.archKey| == 16
    requires n <= COLUMNS && forall i: nat :: i < n ==> Acceptable(d, i)
    requires n < COLUMNS ==> Expected(Some(ValueOf(n, d)), SpecOf(n, ascii, cp037), py).Err?
    ensures AcceptsUpTo(DocarchSpecs(ascii, cp037), ValuesOf(d), py, n)
    ensures |RecordOf(d, ascii, cp037)| == LRECL
    ensures ReadsAs(ConvertedRecord(RecordOf(d, ascii, cp037), DocarchSpecs(ascii, cp037), py), d.row.archKey,
                    DocarchSpecs(ascii, cp037), ValuesOf(d), py, n)
  {
    var specs, values := DocarchSpecs(ascii, cp037), ValuesOf(d);
    forall i | 0 <= i < n
      ensures Expected(Some(values[i]), specs[i], py).Ok?
    {
      ColumnAccepts(d, i, ascii, cp037, py);
    }
    DocarchTable(ascii, cp037);
    ArchiveStands(d, ascii, cp037);
    KeyIsFirst(d, ascii, cp037);
    TableRecordReads(DocarchParts(d, ascii, cp037), values, specs, DocarchBook(), d.row.archKey, py, n);
  }

  // ---- generated rows ----

  lemma KeyPrints(g: nat)
    requires g + 1 < Pow10(KEY_DIGITS)
    ensures |DocarchKey(g)| == 16 && Printable(DocarchKey(g))
  {
    DocarchKeyOrder(g, g);
    ValueOfPadded(g + 1, KEY_DIGITS);
    DigitsPrint(Padded(g + 1, KEY_DIGITS));
    assert Printable("DA");
    BothPrint("DA", Padded(g + 1, KEY_DIGITS));
  }

  /** Every accepted scale keeps row numbers within the digits of a key. */
  lemma ScaledRows(scale: real, g: nat)
    requires MakeSizes(scale).Ok? && g < MakeSizes(scale).value.docarchGenerated
    ensures g + 1 < Pow10(KEY_DIGITS)
  {
    ScaleShrinks(DOCARCH_GENERATED, scale);
    KeyDigitsSuffice();
  }

  lemma ScaleShrinks(n: nat, scale: real)
    requires 0.0 < scale <= 1.0 && n > 0
    ensures Scale(n, scale) <= n + 1
  {
    var x := n as real;
    ProductShrinks(x, scale);
    assert RoundReal(x * scale) <= (x * scale).Floor + 1;
  }

  lemma ProductShrinks(x: real, y: real)
    requires x >= 0.0 && 0.0 < y <= 1.0
    ensures x * y <= x
  {
    assert x * (1.0 - y) >= 0.0;
    assert x * (1.0 - y) == x - x * y;
  }

  const MILLIONS := 8

  lemma KeyDigitsSuffice()
    ensures DOCARCH_GENERATED + 2 < Pow10(KEY_DIGITS)
  {
    assert Pow10(4) == 10_000;
    Pow10Add(4, 4);
    Pow10Monotone(MILLIONS, KEY_DIGITS);
  }

  function DrawGenerated(z: Sizes, g: nat, digests: Digests): Drawn
    requires z.Valid()
  {
    Draw(DOCARCH, g, DocarchKey(g), z.DocarchCohort(g), digests)
  }

  /** Every column of a drawn row is acceptable. */
  lemma DrawnAcceptable(d: Drawn, i: nat)
    requires i < COLUMNS && TextsPrint(d) && TimesRead(d) && NumbersSmall(d.row)
    ensures Acceptable(d, i)
  {
    if i == 5 || i == 6 {
      ChargesSmall(d.row);
    } else if IsTextColumn(i) {
      TextsFit(d, i);
    }
  }

  lemma BaseAcceptable(s: Stream, index: nat, key: string, c: Cohort, digests: Digests, i: nat)
    requires WellFormedDigests(digests) && |key| == 16 && Printable(key) && i < COLUMNS
    ensures Acceptable(Draw(s, index, key, c, digests), i)
  {
    var d := Draw(s, index, key, c, digests);
    DrawnTexts(s, index, key, c, digests);
    DrawnTimes(s, index, key, c, digests);
    DrawnNumbers(s, index, key, c);
    DrawnAcceptable(d, i);
  }

  lemma GeneratedAcceptable(z: Sizes, g: nat, ascii: Codec, cp037: Codec, digests: Digests)
    requires z.Valid() && g + 1 < Pow10(KEY_DIGITS) && Codes(ascii, cp037) && WellFormedDigests(digests)
    ensures forall i: nat :: i < COLUMNS ==> Acceptable(DrawGenerated(z, g, digests), i)
    ensures AllEmittable(DrawGenerated(z, g, digests), ascii, cp037)
  {
    KeyPrints(g);
    forall i: nat | i < COLUMNS
      ensures Acceptable(DrawGenerated(z, g, digests), i) && Emittable(DrawGenerated(z, g, digests), i, ascii, cp037)
    {
      BaseAcceptable(DOCARCH, g, DocarchKey(g), z.DocarchCohort(g), digests, i);
      AcceptableIsEmittable(DrawGenerated(z, g, digests), i, ascii, cp037);
    }
  }

  /** `record()` of the generated row `g`. */
  function Record(z: Sizes, g: nat, ascii: Codec, cp037: Codec, digests: Digests): seq<byte>
    requires z.Valid() && g + 1 < Pow10(KEY_DIGITS) && Codes(ascii, cp037) && WellFormedDigests(digests)
  {
    GeneratedAcceptable(z, g, ascii, cp037, digests);
    RecordOf(DrawGenerated(z, g, digests), ascii, cp037)
  }

  /**
   * At every accepted scale the record of every generated row has 256 bytes and converts: its source key is the key of
   * the row, no column is rejected, and every column holds the drawn value.
   */
  lemma GeneratedRecordConverts(scale: real, g: nat, ascii: Codec, cp037: Codec, digests: Digests, py: Python)
    requires MakeSizes(scale).Ok? && g < MakeSizes(scale).value.docarchGenerated
    requires Codes(ascii, cp037) && WellFormedDigests(digests)
    ensures MakeSizes(scale).value.Valid() && g + 1 < Pow10(KEY_DIGITS)
    ensures var z := MakeSizes(scale).value;
            var d, specs := DrawGenerated(z, g, digests), DocarchSpecs(ascii, cp037);
            && d.row == DocarchGenerated(z, g)
            && |Record(z, g, ascii, cp037, digests)| == LRECL
            && AcceptsUpTo(specs, ValuesOf(d), py, COLUMNS)
            && ReadsAs(ConvertedRecord(Record(z, g, ascii, cp037, digests), specs, py), DocarchKey(g), specs, ValuesOf(d),
                       py, COLUMNS)
  {
    var z := MakeSizes(scale).value;
    AcceptedSizesValid(scale);
    ScaledRows(scale, g);
    GeneratedAcceptable(z, g, ascii, cp037, digests);
    KeyPrints(g);
    ArchiveRecordReads(DrawGenerated(z, g, digests), ascii, cp037, py, COLUMNS);
  }
}
