/**
 * The planted archive rows (migration/source/seed/tables.py): each is rejected by the job at the column and for the
 * reason that its failure class is named after, or it converts (migration/job/ldm/convert.py).
 */
module PlantedRecords {
  import opened ArchiveRecords
  import opened Bytes
  import opened Calendar
  import opened Codecs
  import opened Cohorts
  import opened Convert
  import opened Copybook
  import opened Decimals
  import opened Digits
  import opened Encode
  import opened Mixer
  import opened Packed
  import opened Results
  import opened RoundTrip
  import opened SeedFiles
  import opened SeedRows
  import opened Tables
  import opened Timestamps

  // ---- the rows ----

  /** The characters of the two bytes that the failure classes plant. */
  const SUBSTITUTE := '\U{001A}'
  const LOW_VALUE := '\U{0000}'

  /** The code page has a byte for both, as it has for every control character. */
  ghost predicate MapsControls(cp037: Codec) {
    && SUBSTITUTE in cp037.encode && cp037.encode[SUBSTITUTE] == 0x3F
    && LOW_VALUE in cp037.encode && cp037.encode[LOW_VALUE] == 0x00
  }

  const PLANTED_OWNER := "LOPEZ" + [SUBSTITUTE] + ", M."
  const LOW_VALUES := "\0\0\0\0\0\0\0\0"
  const PLANTED_RATE := 1_234_567_890_123_456_789_000

  predicate UnmappableOwner(i: nat) { i < 5 }

  predicate RateTooLarge(i: nat) { 5 <= i < 10 }

  predicate InvalidDate(i: nat) { 10 <= i < 15 }

  function PlantedRate(i: nat, drawn: nat): nat { if RateTooLarge(i) then PLANTED_RATE + (i - 4) else drawn }

  function PlantedLastAccess(i: nat): string
    requires i < PLANTED_ROWS
  {
    PlantedMoment(i);
    OrBlank(PlantedTs(PlantedRow(i)))
  }

  /** What a planted row replaces in a drawn one. */
  datatype Replacement = Replacement(
    cls: Code, lastAccess: string, charge: nat, rate: nat, owner: string, disposition: string)

  function Replaced(d: Drawn, r: Replacement): Drawn {
    Drawn(
      DocarchRow(d.row.archKey, d.row.versionNo, r.cls, d.row.lastAccessSecs, d.row.lastAccessFrac, r.charge, r.rate,
                 d.row.byteSize, d.row.dispositionDt, d.row.legalHold, d.row.cohort),
      d.docId, r.lastAccess, r.owner, r.disposition, d.sha256, d.sourceSys)
  }

  function ReplacementOf(i: nat, d: Drawn): Replacement
    requires i < PLANTED_ROWS
  {
    Replacement(PlantedRow(i).cls, PlantedLastAccess(i), PlantedCharge(i), PlantedRate(i, d.row.unitRate),
                if UnmappableOwner(i) then PLANTED_OWNER else d.owner,
                if InvalidDate(i) then LOW_VALUES else d.disposition)
  }

  /** What the failure classes plant: an owner with a character of no text, a rate too large, and a date of zeros. */
  lemma PlantsExactly(i: nat, drawn: nat)
    ensures UnmappableOwner(i) <==> i < 5
    ensures InvalidDate(i) <==> 10 <= i < 15
    ensures PlantedRate(i, drawn) == if 5 <= i < 10 then 1_234_567_890_123_456_789_000 + i - 4 else drawn
    ensures PLANTED_OWNER == "LOPEZ\U{001A}, M." && LOW_VALUES == "\0\0\0\0\0\0\0\0"
  {
  }

  function PlantedBase(i: nat, digests: Digests): Drawn
    requires i < PLANTED_ROWS
  {
    Draw(PLANTED, i, PlantedKey(i), S, digests)
  }

  /** The planted row with ordinal `i`: a drawn one with the columns of its failure class replaced. */
  function DrawPlanted(i: nat, digests: Digests): Drawn
    requires i < PLANTED_ROWS
  {
    Replaced(PlantedBase(i, digests), ReplacementOf(i, PlantedBase(i, digests)))
  }

  /** The first column that the job rejects; past the last one when there is none. */
  function RejectedColumn(i: nat): (n: nat)
    ensures n <= COLUMNS
  {
    if UnmappableOwner(i) then 7 else if RateTooLarge(i) then 6 else if InvalidDate(i) then 8 else COLUMNS
  }

  function RejectingRule(i: nat): Rule {
    if UnmappableOwner(i) then CcsidUnmappable(5) else if RateTooLarge(i) then DecimalOverflow else DateInvalid
  }

  // ---- their columns ----

  lemma PlantedKeyPrints(i: nat)
    requires i < PLANTED_ROWS
    ensures |PlantedKey(i)| == 16 && Printable(PlantedKey(i))
  {
    var group := PlantedGroup(i);
    var k, w := if i < 30 then i % 5 + 1 else i - 29, PlantedKeyWidth(group);
    SmallCounter(k, w);
    ValueOfPadded(k, w);
    DigitsPrint(Padded(k, w));
    HeadPrints(group);
    BothPrint(Padded(k, w), if group == 4 then "        " else "");
    BothPrint("MIG0" + [DigitChar(group), '-'], Padded(k, w) + (if group == 4 then "        " else ""));
  }

  lemma HeadPrints(group: nat)
    requires group < 10
    ensures Printable("MIG0" + [DigitChar(group), '-']) && |"MIG0" + [DigitChar(group), '-']| == 6
    ensures Printable("        ") && |"        "| == 8
  {
    var head := "MIG0" + [DigitChar(group), '-'];
    assert head[0] == 'M' && head[1] == 'I' && head[2] == 'G' && head[3] == '0';
    assert head[4] == DigitChar(group) && head[5] == '-';
  }

  lemma PlantedTimestamp(i: nat)
    requires i < PLANTED_ROWS
    ensures IsTimestamp(PlantedLastAccess(i))
  {
    var p := PlantedRow(i);
    PlantedMoment(i);
    Ts12OfParseTs(p.at, p.frac);
    CanonicalIsAccepted(p.at, p.frac);
  }

  lemma PlantedChargeSmall(i: nat)
    requires i < PLANTED_ROWS
    ensures PlantedCharge(i) < Pow10(DECIMAL_WIDTH)
  {
    if i < 30 {
      DrawnNumbers(PLANTED, i, "", S);
      ChargesSmall(DocarchBase(PLANTED, i, "", S));
    } else {
      PowersCover();
    }
  }

  /** What every replacement has, whatever its failure class. */
  ghost predicate IsSound(r: Replacement) { IsTimestamp(r.lastAccess) && r.charge < Pow10(DECIMAL_WIDTH) }

  /** The columns that a failure class leaves as they were drawn. */
  predicate Keeps(r: Replacement, d: Drawn, c: nat) {
    if c == 6 then r.rate == d.row.unitRate
    else if c == 7 then r.owner == d.owner
    else c == 8 ==> r.disposition == d.disposition
  }

  lemma PlantedSound(i: nat, d: Drawn)
    requires i < PLANTED_ROWS
    ensures IsSound(ReplacementOf(i, d))
  {
    PlantedTimestamp(i);
    PlantedChargeSmall(i);
  }

  lemma PlantedKeeps(i: nat, d: Drawn, c: nat)
    requires i < PLANTED_ROWS && c != RejectedColumn(i)
    ensures Keeps(ReplacementOf(i, d), d, c)
  {
  }

  lemma ReplacedAcceptable(d: Drawn, r: Replacement, c: nat)
    requires c < COLUMNS && IsSound(r) && Keeps(r, d, c) && Acceptable(d, c)
    ensures Acceptable(Replaced(d, r), c)
  {
    if c == 3 { CodeTextPrints(r.cls); }
  }

  /** Every column but the planted one is acceptable. */
  lemma PlantedAcceptable(i: nat, digests: Digests, c: nat)
    requires i < PLANTED_ROWS && c < COLUMNS && c != RejectedColumn(i) && WellFormedDigests(digests)
    ensures Acceptable(DrawPlanted(i, digests), c)
  {
    var d := PlantedBase(i, digests);
    PlantedKeyPrints(i);
    BaseAcceptable(PLANTED, i, PlantedKey(i), S, digests, c);
    PlantedSound(i, d);
    PlantedKeeps(i, d, c);
    ReplacedAcceptable(d, ReplacementOf(i, d), c);
  }

  lemma RateRange(i: nat)
    requires RateTooLarge(i)
    ensures Pow10(RATE_DIGITS) <= PLANTED_RATE + (i - 4) < Pow10(DECIMAL_WIDTH)
  {
    assert Pow10(6) == 1_000_000;
    Pow10Add(6, 6);
    Pow10Add(12, 6);
    Pow10Add(18, 6);
    assert Pow10(24) == 1_000_000_000_000_000_000_000_000;
    Pow10Monotone(24, DECIMAL_WIDTH);
  }

  lemma OwnerShape()
    ensures |PLANTED_OWNER| == 10 && PLANTED_OWNER[5] == SUBSTITUTE
    ensures forall k :: 0 <= k < 10 && k != 5 ==> ' ' <= PLANTED_OWNER[k] <= '~'
  {
    var tail := [SUBSTITUTE] + ", M.";
    assert PLANTED_OWNER == "LOPEZ" + tail;
    assert forall k :: 0 <= k < 5 ==> PLANTED_OWNER[k] == "LOPEZ"[k];
    assert forall k :: 6 <= k < 10 ==> PLANTED_OWNER[k] == ", M."[k - 6];
  }

  lemma RateEmittable(d: Drawn, ascii: Codec, cp037: Codec)
    requires d.row.unitRate < Pow10(DECIMAL_WIDTH)
    ensures Emittable(d, 6, ascii, cp037)
  {
  }

  lemma OwnerEmittable(d: Drawn, ascii: Codec, cp037: Codec)
    requires d.owner == PLANTED_OWNER && Codes(ascii, cp037) && MapsControls(cp037)
    ensures Emittable(d, 7, ascii, cp037)
  {
    OwnerShape();
  }

  lemma DateEmittable(d: Drawn, ascii: Codec, cp037: Codec)
    requires d.disposition == LOW_VALUES && MapsControls(cp037)
    ensures Emittable(d, 8, ascii, cp037)
  {
    assert forall k :: 0 <= k < |LOW_VALUES| ==> LOW_VALUES[k] == LOW_VALUE;
  }

  lemma RejectedEmittable(i: nat, d: Drawn, ascii: Codec, cp037: Codec)
    requires i < 15 && Codes(ascii, cp037) && MapsControls(cp037)
    ensures Emittable(Replaced(d, ReplacementOf(i, d)), RejectedColumn(i), ascii, cp037)
  {
    var e := Replaced(d, ReplacementOf(i, d));
    if RateTooLarge(i) {
      RateRange(i);
      RateEmittable(e, ascii, cp037);
    } else if UnmappableOwner(i) {
      OwnerEmittable(e, ascii, cp037);
    } else {
      DateEmittable(e, ascii, cp037);
    }
  }

  /** Every part of a planted row can be written, the planted one too. */
  lemma PlantedEmittable(i: nat, digests: Digests, ascii: Codec, cp037: Codec)
    requires i < PLANTED_ROWS && Codes(ascii, cp037) && MapsControls(cp037) && WellFormedDigests(digests)
    ensures AllEmittable(DrawPlanted(i, digests), ascii, cp037)
  {
    forall c: nat | c < COLUMNS
      ensures Emittable(DrawPlanted(i, digests), c, ascii, cp037)
    {
      if c == RejectedColumn(i) {
        RejectedEmittable(i, PlantedBase(i, digests), ascii, cp037);
      } else {
        PlantedAcceptable(i, digests, c);
        AcceptableIsEmittable(DrawPlanted(i, digests), c, ascii, cp037);
      }
    }
  }

  // ---- their rejections ----

  lemma {:induction false} FirstControlAt(text: string, from: nat, k: nat)
    requires from <= k < |text| && IsControl(text[k]) && forall j :: from <= j < k ==> !IsControl(text[j])
    ensures FirstControl(text, from) == Some(k)
    decreases k - from
  {
    if from == k {
    } else {
      FirstControlAt(text, from + 1, k);
    }
  }

  /** A text with a control character is rejected at its first one. */
  lemma ControlRejected(text: string, k: nat, spec: ColumnSpec, py: Python)
    requires spec.kind == KChar && !spec.field.layout.isNumeric && k < |text| <= spec.field.layout.length
    requires IsControl(text[k]) && forall j :: 0 <= j < k ==> !IsControl(text[j])
    ensures Expected(Some(SText(text)), spec, py) == Err(CcsidUnmappable(k))
  {
    var padded := Ljust(text, spec.field.layout.length);
    assert forall j :: 0 <= j <= k ==> padded[j] == text[j];
    FirstControlAt(padded, 0, k);
  }

  /** A number scaled by 10^8 with too many digits is rejected. */
  lemma LargeRejected(scaled: nat, spec: ColumnSpec, precision: nat, py: Python)
    requires PackedColumn(spec, precision) && precision > 0 && scaled >= Pow10(precision)
    ensures Expected(Some(SDec(Scaled(scaled, DECIMAL_SCALE))), spec, py) == Err(DecimalOverflow)
  {
    RoundedCoeffAtScale(Scaled(scaled, DECIMAL_SCALE), DECIMAL_SCALE);
    ExpectedNumber(Some(SDec(Scaled(scaled, DECIMAL_SCALE))), scaled, spec, py);
    NumDigitsBound(scaled, precision);
  }

  lemma LowValuesRejected(spec: ColumnSpec, py: Python)
    requires spec.kind == KDate8 && !spec.field.layout.isNumeric && spec.field.layout.length == 8
    ensures Expected(Some(SText(LOW_VALUES)), spec, py) == Err(DateInvalid)
  {
    assert LOW_VALUES[0] == LOW_VALUE;
    assert Ljust(LOW_VALUES, 8) == LOW_VALUES;
  }

  lemma OwnerRejected(d: Drawn, ascii: Codec, cp037: Codec, py: Python)
    requires d.owner == PLANTED_OWNER
    ensures Expected(Some(ValueOf(7, d)), SpecOf(7, ascii, cp037), py) == Err(CcsidUnmappable(5))
  {
    OwnerShape();
    ControlRejected(PLANTED_OWNER, 5, SpecOf(7, ascii, cp037), py);
  }

  lemma RateRejected(d: Drawn, ascii: Codec, cp037: Codec, py: Python)
    requires d.row.unitRate >= Pow10(RATE_DIGITS)
    ensures Expected(Some(ValueOf(6, d)), SpecOf(6, ascii, cp037), py) == Err(DecimalOverflow)
  {
    PackedColumns(6, ascii, cp037);
    LargeRejected(d.row.unitRate, SpecOf(6, ascii, cp037), RATE_DIGITS, py);
  }

  lemma DateRejected(d: Drawn, ascii: Codec, cp037: Codec, py: Python)
    requires d.disposition == LOW_VALUES
    ensures Expected(Some(ValueOf(8, d)), SpecOf(8, ascii, cp037), py) == Err(DateInvalid)
  {
    LowValuesRejected(SpecOf(8, ascii, cp037), py);
  }

  lemma PlantedRejected(i: nat, d: Drawn, ascii: Codec, cp037: Codec, py: Python)
    requires i < 15
    ensures var e, n := Replaced(d, ReplacementOf(i, d)), RejectedColumn(i);
            n < COLUMNS && Expected(Some(ValueOf(n, e)), SpecOf(n, ascii, cp037), py) == Err(RejectingRule(i))
  {
    var e := Replaced(d, ReplacementOf(i, d));
    if UnmappableOwner(i) {
      OwnerRejected(e, ascii, cp037, py);
    } else if RateTooLarge(i) {
      RateRange(i);
      RateRejected(e, ascii, cp037, py);
    } else {
      DateRejected(e, ascii, cp037, py);
    }
  }

  /** `record()` of the planted row with ordinal `i`. */
  function PlantedRecord(i: nat, ascii: Codec, cp037: Codec, digests: Digests): seq<byte>
    requires i < PLANTED_ROWS && Codes(ascii, cp037) && MapsControls(cp037) && WellFormedDigests(digests)
  {
    PlantedEmittable(i, digests, ascii, cp037);
    RecordOf(DrawPlanted(i, digests), ascii, cp037)
  }

  /** The error that the job reports for a planted row. */
  function PlantedError(i: nat): Option<FieldError> {
    if RejectedColumn(i) == COLUMNS then None else Some(FieldError(ColumnName(RejectedColumn(i)), RejectingRule(i)))
  }

  /**
   * The first fifteen planted rows are rejected, for the owner's unmappable byte, the rate's overflow or the invalid
   * date, with every column before that one converted; the other twenty-seven convert.
   */
  lemma PlantedRecordReads(i: nat, ascii: Codec, cp037: Codec, digests: Digests, py: Python)
    requires i < PLANTED_ROWS && Codes(ascii, cp037) && MapsControls(cp037) && WellFormedDigests(digests)
    ensures var d, specs, n := DrawPlanted(i, digests), DocarchSpecs(ascii, cp037), RejectedColumn(i);
            var r := ConvertedRecord(PlantedRecord(i, ascii, cp037, digests), specs, py);
            && |PlantedRecord(i, ascii, cp037, digests)| == LRECL
            && AcceptsUpTo(specs, ValuesOf(d), py, n) && ReadsAs(r, PlantedKey(i), specs, ValuesOf(d), py, n)
            && r.Ok? && r.value.columns.error == PlantedError(i)
  {
    var d, n := DrawPlanted(i, digests), RejectedColumn(i);
    PlantedEmittable(i, digests, ascii, cp037);
    PlantedKeyPrints(i);
    forall c: nat | c < n
      ensures Acceptable(d, c)
    {
      PlantedAcceptable(i, digests, c);
    }
    if n < COLUMNS {
      PlantedRejected(i, PlantedBase(i, digests), ascii, cp037, py);
      SpecName(n, ascii, cp037);
    }
    ArchiveRecordReads(d, ascii, cp037, py, n);
  }

  lemma SpecName(i: nat, ascii: Codec, cp037: Codec)
    requires i < COLUMNS
    ensures SpecOf(i, ascii, cp037).name == ColumnName(i)
  {
  }
}
