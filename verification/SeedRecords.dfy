/** The seed's record writer against the job's (migration/source/seed/tables.py, migration/job/ldm/convert.py). */
module SeedRecords {
  import opened Bytes
  import opened Codecs
  import opened Convert
  import opened Copybook
  import opened Decimals
  import opened Encode
  import opened Packed
  import opened Results
  import opened RoundTrip
  import opened Texts

  /** One argument of the join in `record()`. */
  datatype Part =
    | Text(text: string, width: nat, codec: Codec, pad: byte)   // `ascii_field`, `cp037_field`
    | Binary(value: int, width: nat)                            // `comp`
    | Charge31(scaled: int)                                     // `comp3_31_8`

  const PACKED_WIDTH := 16

  function Emitted(p: Part): Option<seq<byte>> {
    match p
    case Text(text, width, codec, pad) =>
      (match codec.Encode(text)
       case Err(_) => None
       case Ok(raw) => if |raw| > width then None else Some(LjustBytes(raw, width, pad)))
    case Binary(value, width) => (match ToSigned(value, width) case Err(_) => None case Ok(raw) => Some(raw))
    case Charge31(scaled) => Comp3Of31By8(scaled)
  }

  /** The column and the source value that a part of the record stands for. */
  ghost predicate StandsFor(p: Part, v: SourceValue, spec: ColumnSpec) {
    var l := spec.field.layout;
    match p
    case Text(text, width, codec, pad) =>
      && (v == SText(text) || v == STimestamp(text)) && !l.isNumeric && l.length == width
      && spec.codec == codec && codec.Valid() && codec.encode[' '] == pad
    case Binary(value, width) =>
      v == SInt(value) && l.isNumeric && spec.field.usage == Comp && l.length == width
    case Charge31(scaled) =>
      && v == SDec(Scaled(scaled, DECIMAL_SCALE)) && l.isNumeric && spec.field.usage == Comp3
      && l.length == PACKED_WIDTH && l.scale == DECIMAL_SCALE
  }

  /** Padding the bytes is encoding the padded text. */
  lemma PadAfterEncoding(text: string, width: nat, codec: Codec)
    requires codec.Valid() && |text| <= width
    ensures codec.Encode(text).Ok? <==> codec.Encode(Ljust(text, width)).Ok?
    ensures codec.Encode(text).Ok? ==>
              codec.Encode(Ljust(text, width)).value == LjustBytes(codec.Encode(text).value, width, codec.encode[' '])
  {
    var padded := Ljust(text, width);
    codec.EncodeCharwise(text);
    codec.EncodeCharwise(padded);
    if codec.Encode(padded).Ok? {
      assert forall i :: 0 <= i < |text| ==> padded[i] == text[i];
    }
    if codec.Encode(text).Ok? {
      assert forall i :: 0 <= i < |padded| ==> padded[i] == if i < |text| then text[i] else ' ';
      assert codec.Encode(padded).value == LjustBytes(codec.Encode(text).value, width, codec.encode[' ']);
    }
  }

  lemma TextAgrees(text: string, width: nat, codec: Codec, pad: byte, v: SourceValue, spec: ColumnSpec, py: Python)
    requires StandsFor(Text(text, width, codec, pad), v, spec)
    ensures var e := Emitted(Text(text, width, codec, pad));
            && (e.Some? <==> EncodeField(Some(v), spec, py).Ok?)
            && (e.Some? ==> EncodeField(Some(v), spec, py) == Ok(e.value))
  {
    if |text| <= width { PadAfterEncoding(text, width, codec); }
  }

  lemma ChargePacked(scaled: int, length: nat, scale: nat)
    ensures var d := Scaled(scaled, scale);
            PackComp3(if d.coeff == 0 then Scaled(0, 0) else d, length, scale) == PackComp3(d, length, scale)
  {
    if scaled == 0 {
      ZeroRounds(Scaled(scaled, scale), scale);
      ZeroRounds(Scaled(0, 0), scale);
    }
  }

  lemma ChargeAgrees(scaled: int, v: SourceValue, spec: ColumnSpec, py: Python)
    requires StandsFor(Charge31(scaled), v, spec)
    ensures var e := Emitted(Charge31(scaled));
            && (e.Some? <==> EncodeField(Some(v), spec, py).Ok?)
            && (e.Some? ==> EncodeField(Some(v), spec, py) == Ok(e.value))
  {
    ChargeField(scaled, spec, py);
    WritersAgree(scaled);
    EmittedWidth(Charge31(scaled));
  }

  /** In its column a charge is packed, a zero as the plain zero. */
  lemma ChargeField(scaled: int, spec: ColumnSpec, py: Python)
    requires spec.field.layout.isNumeric && spec.field.usage == Comp3
    ensures var l, v := spec.field.layout, Scaled(scaled, DECIMAL_SCALE);
            FieldBytes(Some(SDec(v)), spec, py) == Packing(PackComp3(v, l.length, l.scale))
  {
    var l, v := spec.field.layout, Scaled(scaled, DECIMAL_SCALE);
    ChargePacked(scaled, l.length, l.scale);
    PackedField(v, PackComp3(v, l.length, l.scale), spec, py);
  }

  lemma PackedField(d: Decimal, r: Result<seq<byte>, PackedError>, spec: ColumnSpec, py: Python)
    requires spec.field.layout.isNumeric && spec.field.usage == Comp3
    requires r == PackComp3(if d.coeff == 0 then Scaled(0, 0) else d, spec.field.layout.length, spec.field.layout.scale)
    ensures FieldBytes(Some(SDec(d)), spec, py) == Packing(r)
  {
  }

  /** The error of a packed column. */
  function Packing(r: Result<seq<byte>, PackedError>): Result<seq<byte>, EncodeError> {
    match r case Err(_) => Err(EncodeError.DoesNotPack) case Ok(raw) => Ok(raw)
  }

  /** The seed's field writers and the job's `encode_record` emit the same bytes and refuse the same values. */
  lemma WritersAgreeOnPart(p: Part, v: SourceValue, spec: ColumnSpec, py: Python)
    requires StandsFor(p, v, spec)
    ensures Emitted(p).Some? <==> EncodeField(Some(v), spec, py).Ok?
    ensures Emitted(p).Some? ==> EncodeField(Some(v), spec, py) == Ok(Emitted(p).value)
  {
    match p {
      case Text(text, width, codec, pad) => TextAgrees(text, width, codec, pad, v, spec, py);
      case Binary(value, width) =>
      case Charge31(scaled) => ChargeAgrees(scaled, v, spec, py);
    }
  }

  // ---- the whole record ----

  function Joined(parts: seq<seq<byte>>): seq<byte> {
    if parts == [] then [] else Joined(parts[..|parts| - 1]) + parts[|parts| - 1]
  }

  function Blanks(n: nat): (b: seq<byte>)
    ensures |b| == n
  {
    seq(n, _ => 0x20)
  }

  /** Pieces that lie end to end from the start of the record. */
  ghost predicate EndToEnd(ps: seq<Piece>, parts: seq<seq<byte>>) {
    && |ps| == |parts|
    && forall i :: 0 <= i < |ps| ==> ps[i].bytes == Ok(parts[i]) && ps[i].field.offset == |Joined(parts[..i])|
  }

  lemma OverwriteBlanks(front: seq<byte>, last: seq<byte>, n: nat)
    requires |front| + |last| <= n
    ensures Overwrite(front + Blanks(n - |front|), |front|, last) == (front + last) + Blanks(n - |front + last|)
  {
    var out := front + Blanks(n - |front|);
    assert out[..|front|] == front && out[|front| + |last|..] == Blanks(n - |front| - |last|);
  }

  lemma EndToEndFront(ps: seq<Piece>, parts: seq<seq<byte>>)
    requires EndToEnd(ps, parts) && ps != []
    ensures EndToEnd(ps[..|ps| - 1], parts[..|ps| - 1])
  {
    forall i | 0 <= i < |ps| - 1
      ensures parts[..|ps| - 1][..i] == parts[..i]
    {
    }
  }

  /** Writing such pieces over blanks is joining them and filling up with blanks. */
  lemma {:induction false} OverlayIsJoin(ps: seq<Piece>, parts: seq<seq<byte>>, n: nat)
    requires AllFit(ps, n) && EndToEnd(ps, parts) && |Joined(parts)| <= n
    ensures Overlay(ps, n) == Ok(Joined(parts) + Blanks(n - |Joined(parts)|))
  {
    if ps == [] {
      assert Overlay(ps, n) == Ok(Blanks(n));
      assert Joined(parts) + Blanks(n) == Blanks(n);
    } else {
      var k := |ps| - 1;
      EndToEndFront(ps, parts);
      OverlayIsJoin(ps[..k], parts[..k], n);
      assert ps[k].bytes == Ok(parts[k]) && ps[k].field.offset == |Joined(parts[..k])|;
      OverwriteBlanks(Joined(parts[..k]), parts[k], n);
    }
  }

  /** The columns are the first fields of the copybook, in its order; what follows them is filler. */
  ghost predicate LeadingColumns(specs: seq<ColumnSpec>, book: Copybook) {
    && Tiles(book.fields, book.recordLength) && |specs| <= |book.fields|
    && forall i :: 0 <= i < |specs| ==> specs[i].field == book.fields[i]
  }

  /** The parts of a record, column by column. */
  ghost predicate RowParts(parts: seq<Part>, row: map<string, SourceValue>, specs: seq<ColumnSpec>) {
    && |parts| == |specs|
    && forall i :: 0 <= i < |parts| ==>
         specs[i].name in row && StandsFor(parts[i], row[specs[i].name], specs[i]) && Emitted(parts[i]).Some?
  }

  function PartBytes(parts: seq<Part>): (r: seq<seq<byte>>)
    requires forall p :: p in parts ==> Emitted(p).Some?
    ensures |r| == |parts|
  {
    seq(|parts|, i requires 0 <= i < |parts| => Emitted(parts[i]).value)
  }

  lemma {:induction false} OffsetsAdd(parts: seq<seq<byte>>, specs: seq<ColumnSpec>, book: Copybook, k: nat)
    requires LeadingColumns(specs, book) && |parts| == |specs| && k <= |parts|
    requires forall i :: 0 <= i < |parts| ==> |parts[i]| == specs[i].field.layout.length
    ensures |Joined(parts[..k])| == EndBefore(book.fields, k)
  {
    if k == 0 {
    } else {
      OffsetsAdd(parts, specs, book, k - 1);
      assert parts[..k][..k - 1] == parts[..k - 1];
      assert Laid(book.fields, k - 1) && specs[k - 1].field == book.fields[k - 1];
    }
  }

  lemma PiecesOfParts(parts: seq<Part>, row: map<string, SourceValue>, specs: seq<ColumnSpec>, py: Python)
    requires RowParts(parts, row, specs)
    ensures forall p :: p in parts ==> Emitted(p).Some?
    ensures forall i :: 0 <= i < |parts| ==>
              && Pieces(row, specs, py)[i] == Piece(specs[i].field, Ok(PartBytes(parts)[i]))
              && |PartBytes(parts)[i]| == specs[i].field.layout.length
  {
    forall i | 0 <= i < |parts|
      ensures Pieces(row, specs, py)[i] == Piece(specs[i].field, Ok(PartBytes(parts)[i]))
      ensures |PartBytes(parts)[i]| == specs[i].field.layout.length
    {
      WritersAgreeOnPart(parts[i], row[specs[i].name], specs[i], py);
    }
  }

  lemma {:induction false} EndsGrow(fields: seq<Field>, i: nat, k: nat)
    requires i <= k <= |fields| && forall j :: 0 <= j < |fields| ==> Laid(fields, j)
    ensures EndBefore(fields, i) <= EndBefore(fields, k)
    decreases k
  {
    if i == k {
    } else {
      EndsGrow(fields, i, k - 1);
      assert Laid(fields, k - 1);
    }
  }

  lemma LeadingFit(specs: seq<ColumnSpec>, book: Copybook)
    requires LeadingColumns(specs, book)
    ensures FieldsWithin(specs, book.recordLength)
    ensures EndBefore(book.fields, |specs|) <= book.recordLength
  {
    EndsGrow(book.fields, |specs|, |book.fields|);
    forall s | s in specs
      ensures s.field.End() <= book.recordLength
    {
      var i :| 0 <= i < |specs| && specs[i] == s;
      EndsGrow(book.fields, i + 1, |book.fields|);
    }
  }

  /** The record that the seed joins: the parts, and blanks for the filler. */
  function SeedRecord(parts: seq<Part>, length: nat): seq<byte>
    requires forall p :: p in parts ==> Emitted(p).Some?
  {
    var joined := Joined(PartBytes(parts));
    joined + Blanks(if |joined| <= length then length - |joined| else 0)
  }

  /**
   * The two halves agree: the record that the seed joins from its parts is, byte for byte, the record that the job's
   * `encode_record` writes for the same row over the parsed copybook.
   */
  lemma SeedRecordIsWritten(parts: seq<Part>, row: map<string, SourceValue>, specs: seq<ColumnSpec>,
                            book: Copybook, py: Python)
    requires LeadingColumns(specs, book) && RowParts(parts, row, specs)
    ensures FieldsWithin(specs, book.recordLength) && forall p :: p in parts ==> Emitted(p).Some?
    ensures Written(row, specs, book.recordLength, py) == Ok(SeedRecord(parts, book.recordLength))
  {
    PiecesOfParts(parts, row, specs, py);
    LeadingFit(specs, book);
    var bytes, ps := PartBytes(parts), Pieces(row, specs, py);
    forall i | 0 <= i < |ps|
      ensures ps[i].bytes == Ok(bytes[i]) && ps[i].field.offset == |Joined(bytes[..i])|
    {
      OffsetsAdd(bytes, specs, book, i);
      assert Laid(book.fields, i) && specs[i].field == book.fields[i];
    }
    OffsetsAdd(bytes, specs, book, |bytes|);
    assert bytes[..|bytes|] == bytes;
    OverlayIsJoin(ps, bytes, book.recordLength);
  }

  /**
   * So a joined record converts: the source key joins the padded key values, no column is rejected, and every column
   * holds what the row says.
   */
  lemma SeedRecordConverts(parts: seq<Part>, row: map<string, SourceValue>, specs: seq<ColumnSpec>,
                           book: Copybook, py: Python)
    requires LeadingColumns(specs, book) && RowParts(parts, row, specs)
    requires TableSpecs(specs, book) && RowAccepted(row, specs, py) && TextKeys(specs)
    ensures forall p :: p in parts ==> Emitted(p).Some?
    ensures ExpectedKey(row, specs, py).Some?
    ensures var r := ConvertedRecord(SeedRecord(parts, book.recordLength), specs, py);
            && r.Ok? && r.value.sourceKey == Join(ExpectedKey(row, specs, py).value, '|')
            && ColumnsHold(r.value.columns, row, specs, py)
  {
    SeedRecordIsWritten(parts, row, specs, book, py);
    RecordWritable(row, specs, book, py);
    RecordWithTextKeys(row, specs, book, py);
  }

  // ---- widths ----

  function Width(p: Part): nat {
    match p
    case Text(_, width, _, _) => width
    case Binary(_, width) => width
    case Charge31(_) => PACKED_WIDTH
  }

  /** Every emitted part has the width of its column. */
  lemma EmittedWidth(p: Part)
    ensures Emitted(p).Some? ==> |Emitted(p).value| == Width(p)
  {
    match p {
      case Charge31(scaled) => WritersAgree(scaled);
      case _ =>
    }
  }
}
