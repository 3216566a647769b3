/**
 * The archive file end to end: what the seed writes (migration/source/seed/generate.py), what the job reads from every
 * record of it (migration/job/ldm/convert.py), and what the unload of a row writes (migration/job/ldm/stages/extract.py).
 */
module ArchiveFiles {
  import opened ArchiveRecords
  import opened Bytes
  import opened Codecs
  import opened Cohorts
  import opened Convert
  import opened Copybook
  import opened Digits
  import opened Encode
  import opened FileRecords
  import opened PlantedRecords
  import opened Results
  import opened RoundTrip
  import opened SeedRecords
  import opened SeedRows
  import opened Tables
  import Generate
  import SeedFiles

  // ---- the unload ----

  /** Same encodings, same record. */
  lemma SameWritten(specs: seq<ColumnSpec>, a: seq<SourceValue>, b: seq<SourceValue>, n: nat, py: Python)
    requires DistinctColumns(specs) && |specs| == |a| == |b| && FieldsWithin(specs, n)
    requires forall i :: 0 <= i < |specs| ==> EncodeField(Some(a[i]), specs[i], py) == EncodeField(Some(b[i]), specs[i], py)
    ensures Written(RowOf(specs, a), specs, n, py) == Written(RowOf(specs, b), specs, n, py)
  {
    var ps, qs := Pieces(RowOf(specs, a), specs, py), Pieces(RowOf(specs, b), specs, py);
    forall i | 0 <= i < |specs|
      ensures ps[i] == qs[i]
    {
      RowHas(specs, a, i);
      RowHas(specs, b, i);
    }
    assert ps == qs;
  }

  predicate IsNumberColumn(i: nat) { i == 2 || i == 5 || i == 6 || i == 12 }

  /**
   * The value of column `i` as the source database delivers it: the two columns of mainframe bytes verbatim, the other
   * character columns padded to their width.
   */
  function UnloadedValue(i: nat, d: Drawn, ascii: Codec, cp037: Codec): SourceValue
    requires i < COLUMNS && Emittable(d, i, ascii, cp037)
  {
    PartEmitted(d, i, ascii, cp037);
    if IsCp037(i) then SBytes(Emitted(PartOf(i, d, ascii, cp037)).value)
    else if IsNumberColumn(i) then ValueOf(i, d)
    else SText(Ljust(TextOf(i, d), FieldOf(i).layout.length))
  }

  function UnloadedValues(d: Drawn, ascii: Codec, cp037: Codec): (values: seq<SourceValue>)
    requires AllEmittable(d, ascii, cp037)
    ensures |values| == COLUMNS && forall i :: 0 <= i < COLUMNS ==> values[i] == UnloadedValue(i, d, ascii, cp037)
  {
    seq(COLUMNS, i requires 0 <= i < COLUMNS => UnloadedValue(i, d, ascii, cp037))
  }

  /** Padded text is encoded like the text. */
  lemma PaddedEncodes(text: string, spec: ColumnSpec, py: Python)
    requires !spec.field.layout.isNumeric && |text| <= spec.field.layout.length
    ensures EncodeField(Some(SText(Ljust(text, spec.field.layout.length))), spec, py) ==
            EncodeField(Some(SText(text)), spec, py)
  {
  }

  lemma UnloadedEncodes(i: nat, d: Drawn, ascii: Codec, cp037: Codec, py: Python)
    requires i < COLUMNS && Codes(ascii, cp037) && Emittable(d, i, ascii, cp037)
    ensures EncodeField(Some(UnloadedValue(i, d, ascii, cp037)), SpecOf(i, ascii, cp037), py) ==
            EncodeField(Some(ValueOf(i, d)), SpecOf(i, ascii, cp037), py)
  {
    var p, spec := PartOf(i, d, ascii, cp037), SpecOf(i, ascii, cp037);
    PartEmitted(d, i, ascii, cp037);
    PartStands(i, d, ascii, cp037);
    WritersAgreeOnPart(p, ValueOf(i, d), spec, py);
    if !IsCp037(i) && !IsNumberColumn(i) { PaddedEncodes(TextOf(i, d), spec, py); }
  }

  /** The unload of a row writes, byte for byte, the record that the seed wrote for it. */
  lemma UnloadWritesRecord(d: Drawn, ascii: Codec, cp037: Codec, py: Python)
    requires Codes(ascii, cp037) && AllEmittable(d, ascii, cp037)
    ensures FieldsWithin(DocarchSpecs(ascii, cp037), LRECL)
    ensures var specs := DocarchSpecs(ascii, cp037);
            Written(RowOf(specs, UnloadedValues(d, ascii, cp037)), specs, LRECL, py) == Ok(RecordOf(d, ascii, cp037))
  {
    var specs, values, parts := DocarchSpecs(ascii, cp037), ValuesOf(d), DocarchParts(d, ascii, cp037);
    DocarchTable(ascii, cp037);
    ArchiveStands(d, ascii, cp037);
    RowStands(parts, values, specs);
    SeedRecordIsWritten(parts, RowOf(specs, values), specs, DocarchBook(), py);
    forall i: nat | i < COLUMNS
      ensures EncodeField(Some(UnloadedValues(d, ascii, cp037)[i]), specs[i], py) ==
              EncodeField(Some(values[i]), specs[i], py)
    {
      UnloadedEncodes(i, d, ascii, cp037, py);
    }
    SameWritten(specs, UnloadedValues(d, ascii, cp037), values, LRECL, py);
  }

  // ---- the file ----

  /** What the rows of a file are made of. */
  datatype Estate = Estate(z: Sizes, ascii: Codec, cp037: Codec, digests: Digests) {
    ghost predicate Valid() {
      && z.Valid() && z.docarchGenerated < Pow10(KEY_DIGITS)
      && Codes(ascii, cp037) && MapsControls(cp037) && WellFormedDigests(digests)
    }

    /** The number of rows of the archive file. */
    function Rows(): nat { z.docarchGenerated + SeedFiles.PLANTED_ROWS }

    function Row(g: nat): Drawn
      requires Valid() && g < Rows()
    {
      if g < z.docarchGenerated then DrawGenerated(z, g, digests) else DrawPlanted(g - z.docarchGenerated, digests)
    }

    function RowRecord(g: nat): seq<byte>
      requires Valid() && g < Rows()
    {
      if g < z.docarchGenerated then Record(z, g, ascii, cp037, digests)
      else PlantedRecord(g - z.docarchGenerated, ascii, cp037, digests)
    }

    /** The first column of row `g` that the job rejects. */
    function Rejected(g: nat): (n: nat)
      ensures n <= COLUMNS
    {
      if g < z.docarchGenerated then COLUMNS else RejectedColumn(g - z.docarchGenerated)
    }
  }

  /** A record reads as a row, up to the column that is rejected. */
  ghost predicate ReadsRow(d: Drawn, key: string, n: nat, record: seq<byte>, ascii: Codec, cp037: Codec, py: Python) {
    var specs, values := DocarchSpecs(ascii, cp037), ValuesOf(d);
    AcceptsUpTo(specs, values, py, n) && ReadsAs(ConvertedRecord(record, specs, py), key, specs, values, py, n)
  }

  /** So does row `g` of the file. */
  ghost predicate RowReads(e: Estate, g: nat, record: seq<byte>, py: Python)
    requires e.Valid() && g < e.Rows()
  {
    ReadsRow(e.Row(g), SeedFiles.DocarchFileKey(e.z.docarchGenerated, g), e.Rejected(g), record, e.ascii, e.cp037, py)
  }

  lemma GeneratedReads(z: Sizes, g: nat, ascii: Codec, cp037: Codec, digests: Digests, py: Python)
    requires z.Valid() && g + 1 < Pow10(KEY_DIGITS) && Codes(ascii, cp037) && WellFormedDigests(digests)
    ensures var record := Record(z, g, ascii, cp037, digests);
            |record| == LRECL &&
            ReadsRow(DrawGenerated(z, g, digests), DocarchKey(g), COLUMNS, record, ascii, cp037, py)
  {
    GeneratedAcceptable(z, g, ascii, cp037, digests);
    KeyPrints(g);
    ArchiveRecordReads(DrawGenerated(z, g, digests), ascii, cp037, py, COLUMNS);
  }

  lemma PlantedReads(i: nat, ascii: Codec, cp037: Codec, digests: Digests, py: Python)
    requires i < SeedFiles.PLANTED_ROWS && Codes(ascii, cp037) && MapsControls(cp037) && WellFormedDigests(digests)
    ensures var record := PlantedRecord(i, ascii, cp037, digests);
            |record| == LRECL &&
            ReadsRow(DrawPlanted(i, digests), SeedFiles.PlantedKey(i), RejectedColumn(i), record, ascii, cp037, py)
  {
    PlantedRecordReads(i, ascii, cp037, digests, py);
  }

  /**
   * From the record of every row the job reads its key and its columns: all of them for the generated rows and for
   * twenty-seven of the planted ones, and up to the planted failure for the other fifteen.
   */
  lemma RowRecordReads(e: Estate, g: nat, py: Python)
    requires e.Valid() && g < e.Rows()
    ensures |e.RowRecord(g)| == LRECL && RowReads(e, g, e.RowRecord(g), py)
  {
    if g < e.z.docarchGenerated {
      GeneratedReads(e.z, g, e.ascii, e.cp037, e.digests, py);
      GeneratedRow(e, g);
    } else {
      PlantedReads(g - e.z.docarchGenerated, e.ascii, e.cp037, e.digests, py);
      PlantedRowOf(e, g);
    }
  }

  lemma GeneratedRow(e: Estate, g: nat)
    requires e.Valid() && g < e.z.docarchGenerated
    ensures e.Row(g) == DrawGenerated(e.z, g, e.digests) && e.Rejected(g) == COLUMNS
    ensures e.RowRecord(g) == Record(e.z, g, e.ascii, e.cp037, e.digests)
    ensures SeedFiles.DocarchFileKey(e.z.docarchGenerated, g) == DocarchKey(g)
  {
  }

  lemma PlantedRowOf(e: Estate, g: nat)
    requires e.Valid() && e.z.docarchGenerated <= g < e.Rows()
    ensures var i := g - e.z.docarchGenerated;
            && e.Row(g) == DrawPlanted(i, e.digests) && e.Rejected(g) == RejectedColumn(i)
            && e.RowRecord(g) == PlantedRecord(i, e.ascii, e.cp037, e.digests)
            && SeedFiles.DocarchFileKey(e.z.docarchGenerated, g) == SeedFiles.PlantedKey(i)
  {
  }

  lemma RowLength(e: Estate, g: nat)
    requires e.Valid() && g < e.Rows()
    ensures |e.RowRecord(g)| == LRECL
  {
    RowRecordReads(e, g, Python(_ => None, _ => None, _ => ""));
  }

  /** The records of an estate. */
  function RecordsOf(e: Estate): nat -> seq<byte>
    requires e.Valid()
  {
    (g: nat) => if g < e.Rows() then e.RowRecord(g) else []
  }

  /** They have the length that the file demands. */
  lemma RecordsFit(e: Estate)
    requires e.Valid()
    ensures forall g: nat :: g < RowsOf(e.z) ==> |RecordsOf(e)(g)| == LRECL
  {
    forall g: nat | g < RowsOf(e.z)
      ensures |RecordsOf(e)(g)| == LRECL
    {
      RowLength(e, g);
    }
  }

  lemma RecordOfRow(e: Estate, g: nat)
    requires e.Valid() && g < e.Rows()
    ensures RecordsOf(e)(g) == e.RowRecord(g)
  {
  }

  /**
   * From the record at every place of the archive file the job reads the key of that row and its columns, all of them
   * for the generated rows and for twenty-seven of the planted ones, and up to the planted failure for the other fifteen.
   */
  lemma ArchiveFileReads(e: Estate, file: Result<Generate.File, ()>, g: nat, record: seq<byte>, py: Python)
    requires e.Valid() && IsFileOf(e.z, RecordsOf(e), LRECL, file) && g < e.Rows()
    requires HoldsAt(file.value.bytes, LRECL, g, record)
    ensures RowReads(e, g, record, py)
  {
    RecordOfRow(e, g);
    RowRecordReads(e, g, py);
  }

  /** Every accepted scale gives such an estate. */
  lemma ScaleGivesEstate(scale: real, ascii: Codec, cp037: Codec, digests: Digests)
    requires MakeSizes(scale).Ok? && Codes(ascii, cp037) && MapsControls(cp037) && WellFormedDigests(digests)
    ensures Estate(MakeSizes(scale).value, ascii, cp037, digests).Valid()
  {
    AcceptedSizesValid(scale);
    var n := MakeSizes(scale).value.docarchGenerated;
    if n > 0 { ScaledRows(scale, n - 1); }
  }
}
