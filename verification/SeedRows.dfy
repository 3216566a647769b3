/** Generated archive and audit rows (migration/source/seed/tables.py). */
module SeedRows {
  import opened Arith
  import opened Calendar
  import opened Cohorts
  import opened Digits
  import opened Mixer
  import opened Modular
  import opened Results

  // ---- retention policy codes ----

  datatype Code =
    | FIN7 | LGL7 | HRS7 | TAX7 | AUD7 | F07R | L07R | H07R
    | OPS1 | OPS3 | OPS5 | MKT1 | MKT2 | MKT3 | ENG3 | ENG5 | ENG9 | SLS3 | SLS5 | SUP1 | SUP2 | SUP3
    | PRJ3 | PRJ5 | PRJ9 | CMP5 | CMP9 | SEC3 | SEC7 | INS9 | PHI9 | PERM | TMP0 | TMP1 | EML2 | EML5
    | CHT1 | CHT2 | BRD9 | GOV9

  /** The ACTIVE column of the fixed policy list. */
  predicate Active(c: Code) { c != F07R && c != L07R && c != H07R }

  /** The YEARS column of the fixed policy list. */
  function RetentionYears(c: Code): nat {
    match c
    case FIN7 | LGL7 | HRS7 | TAX7 | AUD7 | F07R | L07R | H07R | SEC7 => 7
    case OPS1 | MKT1 | SUP1 | TMP1 | CHT1 => 1
    case MKT2 | SUP2 | EML2 | CHT2 => 2
    case OPS3 | MKT3 | ENG3 | SLS3 | SUP3 | PRJ3 | SEC3 => 3
    case OPS5 | ENG5 | SLS5 | PRJ5 | CMP5 | EML5 => 5
    case ENG9 | PRJ9 | CMP9 | INS9 | PHI9 | BRD9 | GOV9 => 9
    case PERM => 99
    case TMP0 => 0
  }

  /** Retired code to active successor; any other code stands for itself. */
  function SystemOfRecordClass(c: Code): Code {
    match c
    case F07R => FIN7
    case L07R => LGL7
    case H07R => HRS7
    case _ => c
  }

  /** The text of a code. */
  function CodeText(c: Code): string {
    match c
    case FIN7 => "FIN7" case LGL7 => "LGL7" case HRS7 => "HRS7" case TAX7 => "TAX7" case AUD7 => "AUD7"
    case F07R => "F07R" case L07R => "L07R" case H07R => "H07R"
    case OPS1 => "OPS1" case OPS3 => "OPS3" case OPS5 => "OPS5" case MKT1 => "MKT1" case MKT2 => "MKT2"
    case MKT3 => "MKT3" case ENG3 => "ENG3" case ENG5 => "ENG5" case ENG9 => "ENG9" case SLS3 => "SLS3"
    case SLS5 => "SLS5" case SUP1 => "SUP1" case SUP2 => "SUP2" case SUP3 => "SUP3" case PRJ3 => "PRJ3"
    case PRJ5 => "PRJ5" case PRJ9 => "PRJ9" case CMP5 => "CMP5" case CMP9 => "CMP9" case SEC3 => "SEC3"
    case SEC7 => "SEC7" case INS9 => "INS9" case PHI9 => "PHI9" case PERM => "PERM" case TMP0 => "TMP0"
    case TMP1 => "TMP1" case EML2 => "EML2" case EML5 => "EML5" case CHT1 => "CHT1" case CHT2 => "CHT2"
    case BRD9 => "BRD9" case GOV9 => "GOV9"
  }

  /** The digit of the years in the name of a code: the last one, or the one before a final R. */
  ghost predicate NamesYears(c: Code) {
    && |CodeText(c)| == 4 && (c == PERM <==> RetentionYears(c) == 99)
    && (c != PERM ==>
          RetentionYears(c) < 10 && CodeText(c)[if Active(c) then 3 else 2] == DigitChar(RetentionYears(c)))
    && (!Active(c) <==> CodeText(c)[1] == '0')
  }

  lemma YearsBelowTen(c: Code)
    ensures RetentionYears(c) == 99 <==> c == PERM
    ensures RetentionYears(c) != 99 ==> RetentionYears(c) < 10
  {
  }

  lemma YearsDigit(c: Code, t: string, n: nat)
    requires t == CodeText(c) && |t| == 4 && n == RetentionYears(c) < 10 && c != PERM && Active(c)
    ensures t[3] == "0123456789"[n]
  {
  }

  lemma RetiredDigit(c: Code, t: string)
    requires t == CodeText(c) && |t| == 4
    ensures !Active(c) <==> t[1] == '0'
    ensures !Active(c) ==> t[2] == '7' && RetentionYears(c) == 7
  {
  }

  /** The years of a code are the digit in its name, permanent records have 99; retired codes have a zero before it. */
  lemma YearsByName(c: Code)
    ensures NamesYears(c)
  {
    CodeLetters(c);
    YearsBelowTen(c);
    RetiredDigit(c, CodeText(c));
    if c != PERM && Active(c) {
      YearsDigit(c, CodeText(c), RetentionYears(c));
      DigitsListed(RetentionYears(c));
    }
  }

  lemma DigitsListed(d: nat)
    requires d < 10
    ensures DigitChar(d) == "0123456789"[d]
  {
  }

  /** The system of record of a retired code is the active code of the same years with the same first letter. */
  lemma SuccessorByName(c: Code)
    ensures Active(SystemOfRecordClass(c)) && RetentionYears(SystemOfRecordClass(c)) == RetentionYears(c)
    ensures CodeText(SystemOfRecordClass(c))[0] == CodeText(c)[0]
    ensures Active(c) ==> SystemOfRecordClass(c) == c
  {
  }

  predicate IsLetter(c: char) { 'A' <= c <= 'Z' || '0' <= c <= '9' }

  predicate FourLetters(t: string) { |t| == 4 && IsLetter(t[0]) && IsLetter(t[1]) && IsLetter(t[2]) && IsLetter(t[3]) }

  lemma CodeLetters(c: Code)
    ensures FourLetters(CodeText(c))
  {
  }

  const SET_ACTIVE: seq<Code> := [FIN7, LGL7, HRS7, TAX7, AUD7]
  const OTHER_ACTIVE: seq<Code> := [
    OPS1, OPS3, OPS5, MKT1, MKT2, MKT3, ENG3, ENG5, ENG9, SLS3, SLS5, SUP1, SUP2, SUP3, PRJ3, PRJ5,
    PRJ9, CMP5, CMP9, SEC3, SEC7, INS9, PHI9, PERM, TMP0, TMP1, EML2, EML5, CHT1, CHT2, BRD9, GOV9]

  predicate InSetActive(c: Code) { c == FIN7 || c == LGL7 || c == HRS7 || c == TAX7 || c == AUD7 }

  /** The selection set: the active seven-year codes and two of the retired ones. */
  predicate InClosed7y(c: Code) { InSetActive(c) || c == F07R || c == L07R }

  /** The "other" list holds active codes outside the selected set, so none of them is ever selected. */
  lemma OtherActiveOpen(k: nat)
    requires k < |OTHER_ACTIVE|
    ensures Active(OTHER_ACTIVE[k]) && !InClosed7y(OTHER_ACTIVE[k])
  {
  }

  lemma SetActiveClosed(k: nat)
    requires k < |SET_ACTIVE|
    ensures InSetActive(SET_ACTIVE[k]) && Active(SET_ACTIVE[k])
  {
  }

  /** The policy table lists every code once, in this order. */
  const POLICIES := 40

  function PolicyRank(c: Code): (k: nat)
    ensures k < POLICIES
  {
    match c
    case FIN7 => 0 case LGL7 => 1 case HRS7 => 2 case TAX7 => 3 case AUD7 => 4 case F07R => 5 case L07R => 6
    case H07R => 7 case OPS1 => 8 case OPS3 => 9 case OPS5 => 10 case MKT1 => 11 case MKT2 => 12 case MKT3 => 13
    case ENG3 => 14 case ENG5 => 15 case ENG9 => 16 case SLS3 => 17 case SLS5 => 18 case SUP1 => 19 case SUP2 => 20
    case SUP3 => 21 case PRJ3 => 22 case PRJ5 => 23 case PRJ9 => 24 case CMP5 => 25 case CMP9 => 26 case SEC3 => 27
    case SEC7 => 28 case INS9 => 29 case PHI9 => 30 case PERM => 31 case TMP0 => 32 case TMP1 => 33 case EML2 => 34
    case EML5 => 35 case CHT1 => 36 case CHT2 => 37 case BRD9 => 38 case GOV9 => 39
  }

  function PolicyAt(k: nat): Code {
    if k == 0 then FIN7 else if k == 1 then LGL7 else if k == 2 then HRS7 else if k == 3 then TAX7 else
    if k == 4 then AUD7 else if k == 5 then F07R else if k == 6 then L07R else if k == 7 then H07R else
    if k == 8 then OPS1 else if k == 9 then OPS3 else if k == 10 then OPS5 else if k == 11 then MKT1 else
    if k == 12 then MKT2 else if k == 13 then MKT3 else if k == 14 then ENG3 else if k == 15 then ENG5 else
    if k == 16 then ENG9 else if k == 17 then SLS3 else if k == 18 then SLS5 else if k == 19 then SUP1 else
    if k == 20 then SUP2 else if k == 21 then SUP3 else if k == 22 then PRJ3 else if k == 23 then PRJ5 else
    if k == 24 then PRJ9 else if k == 25 then CMP5 else if k == 26 then CMP9 else if k == 27 then SEC3 else
    if k == 28 then SEC7 else if k == 29 then INS9 else if k == 30 then PHI9 else if k == 31 then PERM else
    if k == 32 then TMP0 else if k == 33 then TMP1 else if k == 34 then EML2 else if k == 35 then EML5 else
    if k == 36 then CHT1 else if k == 37 then CHT2 else if k == 38 then BRD9 else GOV9
  }

  lemma PolicyRanked(k: nat)
    requires k < POLICIES
    ensures PolicyRank(PolicyAt(k)) == k
  {
  }

  lemma RankedPolicy(c: Code)
    ensures PolicyAt(PolicyRank(c)) == c
  {
    if PolicyRank(c) < POLICIES / 2 { RankedFirst(c); } else { RankedSecond(c); }
  }

  lemma RankedFirst(c: Code)
    requires PolicyRank(c) < POLICIES / 2
    ensures PolicyAt(PolicyRank(c)) == c
  {
  }

  lemma RankedSecond(c: Code)
    requires PolicyRank(c) >= POLICIES / 2
    ensures PolicyAt(PolicyRank(c)) == c
  {
  }

  /** The place of a code in the list, found from the first two characters and the last one of its text. */
  function RankOfLetters(a: char, b: char, d: char): nat {
    match a
    case 'F' => if b == 'I' then 0 else 5
    case 'L' => if b == 'G' then 1 else 6
    case 'H' => if b == 'R' then 2 else 7
    case 'T' => if b == 'A' then 3 else if d == '0' then 32 else 33
    case 'A' => 4
    case 'O' => if d == '1' then 8 else if d == '3' then 9 else 10
    case 'M' => if d == '1' then 11 else if d == '2' then 12 else 13
    case 'E' => if b == 'N' then (if d == '3' then 14 else if d == '5' then 15 else 16) else if d == '2' then 34 else 35
    case 'S' =>
      if b == 'L' then (if d == '3' then 17 else 18)
      else if b == 'U' then (if d == '1' then 19 else if d == '2' then 20 else 21)
      else if d == '3' then 27 else 28
    case 'P' =>
      if b == 'R' then (if d == '3' then 22 else if d == '5' then 23 else 24) else if b == 'H' then 30 else 31
    case 'C' => if b == 'M' then (if d == '5' then 25 else 26) else if d == '1' then 36 else 37
    case 'I' => 29
    case 'B' => 38
    case _ => 39
  }

  lemma TextRanked(c: Code)
    ensures FourLetters(CodeText(c)) && RankOfLetters(CodeText(c)[0], CodeText(c)[1], CodeText(c)[3]) == PolicyRank(c)
  {
  }

  /** Different codes have different texts. */
  lemma CodesDiffer(c: Code, d: Code)
    ensures CodeText(c) == CodeText(d) <==> c == d
  {
    TextRanked(c);
    TextRanked(d);
    RankedPolicy(c);
    RankedPolicy(d);
  }

  /** No two policies have the same key. */
  lemma PolicyKeysDistinct(j: nat, k: nat)
    requires j < k < POLICIES
    ensures CodeText(PolicyAt(j)) != CodeText(PolicyAt(k))
  {
    PolicyRanked(j);
    PolicyRanked(k);
    CodesDiffer(PolicyAt(j), PolicyAt(k));
  }

  // ---- archive rows ----

  const T2012 := 1_325_376_000
  const T2019 := 1_546_300_800
  const T2026H2 := 1_782_864_000
  const YEAR3_SECS := 94_608_000
  const CUTOFF_TEXT := "2019-01-01-00.00.00.000000000000"

  /** The four constants are what the source computes from the calendar. */
  lemma EpochConstants()
    ensures T2012 == TimeGm(Moment(Date(2012, 1, 1), 0, 0, 0))
    ensures T2019 == TimeGm(Moment(Date(2019, 1, 1), 0, 0, 0))
    ensures T2026H2 == TimeGm(Moment(Date(2026, 7, 1), 0, 0, 0))
    ensures YEAR3_SECS == 3 * 365 * 86400
  {
    assert DaysBeforeMonth(2026, 3) == 59;
    assert DaysBeforeMonth(2026, 5) == 120;
    assert DaysBeforeMonth(2026, 7) == 181;
  }

  /** The cutoff text is the TIMESTAMP(12) text of the cutoff second. */
  lemma CutoffText()
    ensures InRange(T2019) && Ts12(T2019, 0) == Some(CUTOFF_TEXT)
  {
    EpochConstants();
    var t := Moment(Date(2019, 1, 1), 0, 0, 0);
    GmTimeOfTimeGm(t);
    CutoffDigits();
  }

  lemma YearDigits() ensures Padded(2019, 4) == "2019" { }

  lemma PairDigits() ensures Padded(1, 2) == "01" && Padded(0, 2) == "00" { }

  lemma FractionDigits() ensures Padded(0, 12) == "000000000000" { }

  lemma CutoffPieces()
    ensures "2019" + ("-" + ("01" + ("-" + ("01" + ("-" + ("00" + ("." + ("00" + ("." + ("00" + ("." +
            "000000000000"))))))))))) == CUTOFF_TEXT
  {
  }

  lemma CutoffDigits()
    ensures MomentText(Moment(Date(2019, 1, 1), 0, 0, 0), 0) == CUTOFF_TEXT
  {
    YearDigits();
    PairDigits();
    FractionDigits();
    CutoffPieces();
  }

  function CohortStart(c: Cohort): nat { if c == R then T2019 else T2012 }

  function CohortEnd(c: Cohort): nat { if c == S then T2019 else T2026H2 }

  /** The columns of an archive row that the selection, the charges and the child rows depend on. */
  datatype DocarchRow = DocarchRow(
    archKey: string, versionNo: nat, retentionClass: Code, lastAccessSecs: nat, lastAccessFrac: nat,
    storageCharge: nat, unitRate: nat, byteSize: nat, dispositionDt: Option<string>, legalHold: bool, cohort: Cohort)
  {
    function LastAccessTs(): Option<string> { Ts12(lastAccessSecs, lastAccessFrac) }
  }

  // Field numbers: copybook ordinals, and numbers from 40 up for choices that are not columns.
  const F_VERSION := 3
  const F_CLASS := 4
  const F_ACCESS := 5
  const F_RATE := 7
  const F_HOLD := 10
  const F_BYTES := 13
  const F_FRACTION := 42
  const F_EVENT := 44

  /** The numbers are different, below the 64 that a draw has room for, and those of the derivation table. */
  lemma FieldNumbers()
    ensures var fs := [F_VERSION, F_CLASS, F_ACCESS, F_RATE, F_HOLD, F_BYTES, F_FRACTION, F_EVENT];
            fs == [3, 4, 5, 7, 10, 13, 42, 44] && forall i, j :: 0 <= i < j < |fs| ==> fs[i] < fs[j] < FIELDS
  {
  }

  function Charge(byteSize: nat, unitRate: nat): nat { byteSize * unitRate }

  function PickClass(s: Stream, index: nat, cohort: Cohort): Code {
    if cohort == O then OTHER_ACTIVE[Pick(s, index, F_CLASS, |OTHER_ACTIVE|)]
    else SET_ACTIVE[Pick(s, index, F_CLASS, |SET_ACTIVE|)]
  }

  function PickAccess(s: Stream, index: nat, cohort: Cohort): (secs: nat)
    ensures CohortStart(cohort) <= secs < CohortEnd(cohort)
  {
    CohortStart(cohort) + Pick(s, index, F_ACCESS, CohortEnd(cohort) - CohortStart(cohort))
  }

  function DocarchBase(s: Stream, index: nat, archKey: string, cohort: Cohort): (row: DocarchRow)
    ensures row.cohort == cohort && CohortStart(cohort) <= row.lastAccessSecs < CohortEnd(cohort)
  {
    var cls, secs := PickClass(s, index, cohort), PickAccess(s, index, cohort);
    var byteSize := 1024 + Pick(s, index, F_BYTES, 50_000_000);
    var unitRate := 1 + Pick(s, index, F_RATE, 99_999);
    DocarchRow(
      archKey, 1 + Pick(s, index, F_VERSION, 9), cls, secs, Pick(s, index, F_FRACTION, FRAC),
      Charge(byteSize, unitRate), unitRate, byteSize, AddYears(secs, RetentionYears(cls)),
      cohort == O && Pick(s, index, F_HOLD, 50) == 0, cohort)
  }

  /** The ranges that the drawn columns lie in, and what the charge is made of. */
  lemma DrawnRanges(s: Stream, index: nat, archKey: string, cohort: Cohort)
    ensures var row := DocarchBase(s, index, archKey, cohort);
            && row.archKey == archKey && 1 <= row.versionNo <= 9 && 1 <= row.unitRate <= 99_999
            && 1024 <= row.byteSize < 50_001_024 && row.storageCharge == row.byteSize * row.unitRate
            && (row.legalHold ==> row.cohort == O) && row.lastAccessFrac < 1_000_000_000_000
  {
  }

  /** Each drawn column has its own field number: its ordinal in the copybook, or one from 40 up. */
  lemma DrawsExactly(s: Stream, index: nat, archKey: string, cohort: Cohort)
    ensures var row := DocarchBase(s, index, archKey, cohort);
            && row.versionNo == 1 + Pick(s, index, 3, 9) && row.unitRate == 1 + Pick(s, index, 7, 99_999)
            && row.byteSize == 1024 + Pick(s, index, 13, 50_000_000) && row.lastAccessFrac == Pick(s, index, 42, FRAC)
            && (row.legalHold <==> cohort == O && Pick(s, index, 10, 50) == 0)
            && (cohort != O ==> row.retentionClass == [FIN7, LGL7, HRS7, TAX7, AUD7][Pick(s, index, 4, 5)])
            && (cohort == O ==> row.retentionClass == OTHER_ACTIVE[Pick(s, index, 4, 32)])
            && row.lastAccessSecs == CohortStart(cohort) + Pick(s, index, 5, CohortEnd(cohort) - CohortStart(cohort))
  {
  }

  function DocarchKey(g: nat): string { "DA" + Padded(g + 1, KEY_DIGITS) }

  function DocarchGenerated(z: Sizes, g: nat): DocarchRow
    requires z.Valid()
  {
    DocarchBase(DOCARCH, g, DocarchKey(g), z.DocarchCohort(g))
  }

  /** The manifest predicate, evaluated on the class and on the timestamp text. */
  predicate IsSelected(cls: Code, ts: Option<string>) {
    InClosed7y(cls) && ts.Some? && LexLess(ts.value, CUTOFF_TEXT)
  }

  /** Class and last access of a generated row follow its cohort. */
  lemma BaseRanges(s: Stream, index: nat, key: string, c: Cohort)
    ensures var row := DocarchBase(s, index, key, c);
            && row.cohort == c
            && CohortStart(c) <= row.lastAccessSecs < CohortEnd(c)
            && InRange(row.lastAccessSecs) && row.lastAccessFrac < FRAC
            && (c == O ==> Active(row.retentionClass) && !InClosed7y(row.retentionClass))
            && (c != O ==> InSetActive(row.retentionClass))
  {
    if c == O {
      OtherActiveOpen(Pick(s, index, F_CLASS, |OTHER_ACTIVE|));
    } else {
      SetActiveClosed(Pick(s, index, F_CLASS, |SET_ACTIVE|));
    }
  }

  /** Comparing the timestamp text with the cutoff text is comparing the seconds with the cutoff second. */
  lemma BeforeCutoff(secs: int, frac: nat)
    requires InRange(secs) && frac < FRAC
    ensures LexLess(Ts12(secs, frac).value, CUTOFF_TEXT) <==> secs < T2019
  {
    CutoffText();
    Ts12Order(secs, frac, T2019, 0);
  }

  lemma SelectedByTime(cls: Code, secs: int, frac: nat)
    requires InRange(secs) && frac < FRAC
    ensures IsSelected(cls, Ts12(secs, frac)) <==> InClosed7y(cls) && secs < T2019
  {
    BeforeCutoff(secs, frac);
  }

  /**
   * A generated row is selected by text comparison exactly when its cohort is S, so the generator's two
   * assertions hold for every row at every accepted scale.
   */
  lemma SelectedExactlyS(z: Sizes, g: nat)
    requires z.Valid()
    ensures var row := DocarchGenerated(z, g);
            && (IsSelected(row.retentionClass, row.LastAccessTs()) <==> row.cohort == S)
            && (row.cohort == S ==> row.lastAccessSecs < T2019 && InSetActive(row.retentionClass))
  {
    var row := DocarchGenerated(z, g);
    BaseRanges(DOCARCH, g, DocarchKey(g), z.DocarchCohort(g));
    SelectedByTime(row.retentionClass, row.lastAccessSecs, row.lastAccessFrac);
  }

  lemma YearBound(secs: int)
    requires InRange(secs) && secs < T2026H2
    ensures GmTime(secs).value.date.year <= 2026
  {
    EpochConstants();
    var a, b := GmTime(secs).value, Moment(Date(2026, 7, 1), 0, 0, 0);
    TimeGmOfGmTime(secs);
    TimeGmOrder(a, b);
  }

  predicate IsYearsLater(text: Option<string>, secs: int, years: nat) {
    InRange(secs) && text.Some? &&
    var e := YearsLater(GmTime(secs).value.date, years);
    ValidDate(e) && text.value == Date8Text(e)
  }

  lemma RetentionIsRealDate(secs: int, c: Code)
    requires InRange(secs) && secs < T2026H2
    ensures IsYearsLater(AddYears(secs, RetentionYears(c)), secs, RetentionYears(c))
  {
    YearBound(secs);
    AddYearsIsRealDate(secs, RetentionYears(c));
  }

  /** The disposition date of every row is a real date, in the year of last access plus the retention years. */
  lemma DispositionIsRealDate(s: Stream, index: nat, key: string, c: Cohort)
    ensures var row := DocarchBase(s, index, key, c);
            IsYearsLater(row.dispositionDt, row.lastAccessSecs, RetentionYears(row.retentionClass))
  {
    RetentionIsRealDate(PickAccess(s, index, c), PickClass(s, index, c));
  }

  lemma SamePrefix(p: string, x: string, y: string)
    ensures p + x == p + y <==> x == y
    ensures LexLess(p + x, p + y) <==> LexLess(x, y)
  {
    assert (p + x)[|p|..] == x && (p + y)[|p|..] == y;
    LexAppend(p, x, p, y);
    Irreflexive(p);
  }

  lemma NumberedKeyOrder(prefix: string, w: nat, m: nat, n: nat)
    requires w >= 1 && m < Pow10(w) && n < Pow10(w)
    ensures |prefix + Padded(m, w)| == |prefix| + w
    ensures LexLess(prefix + Padded(m, w), prefix + Padded(n, w)) <==> m < n
    ensures prefix + Padded(m, w) == prefix + Padded(n, w) <==> m == n
  {
    PaddedOrder(m, n, w);
    SamePrefix(prefix, Padded(m, w), Padded(n, w));
  }

  lemma KeyText(w: nat, g: nat)
    requires w == KEY_DIGITS
    ensures DocarchKey(g) == "DA" + Padded(g + 1, w)
  {
  }

  lemma KeyOrderAt(w: nat, g: nat, h: nat)
    requires w == KEY_DIGITS && g + 1 < Pow10(w) && h + 1 < Pow10(w)
    ensures |DocarchKey(g)| == 16
    ensures LexLess(DocarchKey(g), DocarchKey(h)) <==> g < h
    ensures DocarchKey(g) == DocarchKey(h) <==> g == h
  {
    KeyText(w, g);
    KeyText(w, h);
    NumberedKeyOrder("DA", w, g + 1, h + 1);
  }

  /** Keys are fixed width, distinct and ordered like their row numbers, below 10^14 rows. */
  lemma DocarchKeyOrder(g: nat, h: nat)
    requires g + 1 < Pow10(KEY_DIGITS) && h + 1 < Pow10(KEY_DIGITS)
    ensures |DocarchKey(g)| == 16
    ensures LexLess(DocarchKey(g), DocarchKey(h)) <==> g < h
    ensures DocarchKey(g) == DocarchKey(h) <==> g == h
  {
    KeyOrderAt(KEY_DIGITS, g, h);
  }

  const KEY_DIGITS := 14

  // ---- audit rows ----

  const AUDIT_KEY_DIGITS := 18
  const ORPHAN_KEY_DIGITS := 14
  const ORPHANS := 5

  /** The key of row `m` of the audit file: the generated rows, then the orphans. */
  function FileaudFileKey(n: nat, m: nat): string {
    if m < n then "FA" + Padded(m + 1, AUDIT_KEY_DIGITS) else "MIG05-" + Padded(m - n + 1, ORPHAN_KEY_DIGITS)
  }

  lemma KeysApart(prefix: string, w: nat, m: nat, n: nat)
    requires w >= 1 && m < Pow10(w) && n < Pow10(w) && m != n
    ensures prefix + Padded(m, w) != prefix + Padded(n, w)
  {
    NumberedKeyOrder(prefix, w, m, n);
  }

  lemma FewOrphans()
    ensures ORPHANS < Pow10(ORPHAN_KEY_DIGITS)
  {
    Widths();
    Pow10Monotone(SMALL, ORPHAN_KEY_DIGITS);
  }

  /** No two rows of the audit file have the same key, below 10^18 generated rows. */
  lemma FileaudKeysDistinct(n: nat, m: nat, k: nat)
    requires n < Pow10(AUDIT_KEY_DIGITS) && m < k < n + ORPHANS
    ensures FileaudFileKey(n, m) != FileaudFileKey(n, k)
  {
    if k < n {
      KeysApart("FA", AUDIT_KEY_DIGITS, m + 1, k + 1);
    } else if m >= n {
      FewOrphans();
      KeysApart("MIG05-", ORPHAN_KEY_DIGITS, m - n + 1, k - n + 1);
    } else {
      assert FileaudFileKey(n, m)[0] == 'F' && FileaudFileKey(n, k)[0] == 'M';
    }
  }

  const SMALL := 2

  /** The row number of the parent of audit row `m`. */
  function ParentOf(z: Sizes, m: nat, sKeys: seq<nat>, nsKeys: seq<nat>): nat
    requires z.Valid() && |sKeys| > 0 && |nsKeys| > 0
  {
    var q := z.FileaudQ(m);
    if q < z.fileaudSelected then sKeys[q % |sKeys|]
    else nsKeys[(q - z.fileaudSelected) % |nsKeys|]
  }

  /** The event second of audit row `m`, drawn relative to its parent. */
  function EventSecs(m: nat, parent: DocarchRow): int
    requires parent.cohort == R ==> parent.lastAccessSecs >= T2019
  {
    if parent.cohort == R then T2019 + Pick(FILEAUD, m, F_EVENT, parent.lastAccessSecs - T2019 + 1)
    else parent.lastAccessSecs - Pick(FILEAUD, m, F_EVENT, YEAR3_SECS)
  }

  /** The parent of a child is in cohort S exactly for the selected positions. */
  lemma ParentCohort(z: Sizes, m: nat, sKeys: seq<nat>, nsKeys: seq<nat>)
    requires z.Valid() && KeyLists(z, sKeys, nsKeys)
    ensures ParentOf(z, m, sKeys, nsKeys) < z.docarchGenerated
    ensures z.DocarchCohort(ParentOf(z, m, sKeys, nsKeys)) == S <==> z.FileaudQ(m) < z.fileaudSelected
  {
    var p := ParentOf(z, m, sKeys, nsKeys);
    assert if z.FileaudQ(m) < z.fileaudSelected then p in sKeys else p in nsKeys;
  }

  /** Children of S parents lie before the cutoff; children of R parents between the cutoff and the parent. */
  lemma EventWindow(z: Sizes, m: nat, sKeys: seq<nat>, nsKeys: seq<nat>)
    requires z.Valid() && KeyLists(z, sKeys, nsKeys)
    ensures var parent := DocarchGenerated(z, ParentOf(z, m, sKeys, nsKeys));
            var ev := EventSecs(m, parent);
            && ev <= parent.lastAccessSecs
            && (parent.cohort == S ==> ev < T2019)
            && (parent.cohort == R ==> T2019 <= ev)
            && (parent.cohort != R ==> parent.lastAccessSecs - YEAR3_SECS < ev)
            && InRange(ev)
  {
    var p := ParentOf(z, m, sKeys, nsKeys);
    BaseRanges(DOCARCH, p, DocarchKey(p), z.DocarchCohort(p));
  }

  /** An audit row satisfies the selection predicate exactly when its class and time do, by text. */
  lemma ChildSelected(z: Sizes, m: nat, sKeys: seq<nat>, nsKeys: seq<nat>)
    requires z.Valid() && KeyLists(z, sKeys, nsKeys)
    ensures var parent := DocarchGenerated(z, ParentOf(z, m, sKeys, nsKeys));
            IsSelected(parent.retentionClass, Ts12(EventSecs(m, parent), parent.lastAccessFrac)) <==> parent.cohort == S
  {
    var p := ParentOf(z, m, sKeys, nsKeys);
    var parent := DocarchGenerated(z, p);
    EventWindow(z, m, sKeys, nsKeys);
    BaseRanges(DOCARCH, p, DocarchKey(p), z.DocarchCohort(p));
    SelectedByTime(parent.retentionClass, EventSecs(m, parent), parent.lastAccessFrac);
  }

  // ---- how many children each parent gets ----

  /** The children of one archive row. */
  ghost function ChildrenOf(z: Sizes, g: nat, sKeys: seq<nat>, nsKeys: seq<nat>): set<nat>
    requires z.Valid() && KeyLists(z, sKeys, nsKeys)
  {
    set m: nat | m < z.fileaudGenerated && ParentOf(z, m, sKeys, nsKeys) == g
  }

  ghost function SelectedChildren(z: Sizes, sKeys: seq<nat>, nsKeys: seq<nat>): set<nat>
    requires z.Valid() && KeyLists(z, sKeys, nsKeys)
  {
    set m: nat | m < z.fileaudGenerated && z.DocarchCohort(ParentOf(z, m, sKeys, nsKeys)) == S
  }

  /** Exactly the configured number of children have a selected parent. */
  lemma SelectedChildrenCount(z: Sizes, sKeys: seq<nat>, nsKeys: seq<nat>)
    requires z.Valid() && KeyLists(z, sKeys, nsKeys)
    ensures |SelectedChildren(z, sKeys, nsKeys)| == z.fileaudSelected
  {
    var qs := Interval(0, z.fileaudSelected);
    PreimageSize(FILEAUD_MULT, FILEAUD_ADD, z.fileaudGenerated, qs);
    IntervalSize(0, z.fileaudSelected);
    forall m: nat {:trigger ParentOf(z, m, sKeys, nsKeys)}
      ensures z.DocarchCohort(ParentOf(z, m, sKeys, nsKeys)) == S <==> z.FileaudQ(m) in qs
    {
      ParentCohort(z, m, sKeys, nsKeys);
    }
    assert SelectedChildren(z, sKeys, nsKeys) == Preimage(FILEAUD_MULT, FILEAUD_ADD, z.fileaudGenerated, qs);
  }

  /** The even share of `n` things among `k` takers: taker `i` gets one more while the remainder lasts. */
  function Share(n: nat, k: nat, i: nat): nat
    requires k > 0
  {
    n / k + if i < n % k then 1 else 0
  }

  predicate IsTurn(q: nat, lo: nat, n: nat, k: nat, i: nat)
    requires k > 0
  {
    lo <= q < lo + n && (q - lo) % k == i
  }

  /** Positions `lo + j`, `j < n`, that fall to taker `i` of `k`. */
  ghost function Turns(lo: nat, n: nat, k: nat, i: nat): set<nat>
    requires k > 0
  {
    set q: nat | q < lo + n && IsTurn(q, lo, n, k, i)
  }

  lemma {:induction false} TurnsSize(lo: nat, n: nat, k: nat, i: nat)
    requires i < k
    ensures |Turns(lo, n, k, i)| == Share(n, k, i)
    decreases n
  {
    if n == 0 {
      assert Turns(lo, n, k, i) == {};
    } else {
      TurnsSize(lo, n - 1, k, i);
      NextShare(n, k, i);
      NextTurn(lo, n, k, i);
    }
  }

  lemma NextTurn(lo: nat, n: nat, k: nat, i: nat)
    requires n > 0 && k > 0
    ensures lo + n - 1 !in Turns(lo, n - 1, k, i)
    ensures Turns(lo, n, k, i) == Turns(lo, n - 1, k, i) + if (n - 1) % k == i then {lo + n - 1} else {}
  {
    assert lo + n - 1 - lo == n - 1;
  }

  lemma NextShare(n: nat, k: nat, i: nat)
    requires n > 0 && i < k
    ensures Share(n, k, i) == Share(n - 1, k, i) + if (n - 1) % k == i then 1 else 0
  {
    var q, r := (n - 1) / k, (n - 1) % k;
    assert n == k * q + (r + 1);
    if r + 1 < k {
      DivUnique(n, k, q, r + 1);
    } else {
      assert k * (q + 1) == k * q + k;
      DivUnique(n, k, q + 1, 0);
    }
  }

  lemma SameKeyOnce(xs: seq<nat>, i: nat, j: nat)
    requires StrictlyIncreasing(xs) && i < |xs| && j < |xs|
    ensures xs[i] == xs[j] <==> i == j
  {
  }

  /**
   * Child distribution: the i-th selected parent gets the even share of the selected children, the i-th
   * other parent the even share of the others, so any two shares differ by at most one.
   */
  lemma ChildrenCount(z: Sizes, sKeys: seq<nat>, nsKeys: seq<nat>, i: nat)
    requires z.Valid() && KeyLists(z, sKeys, nsKeys)
    ensures i < |sKeys| ==>
              |ChildrenOf(z, sKeys[i], sKeys, nsKeys)| == Share(z.fileaudSelected, z.docarchS, i)
    ensures i < |nsKeys| ==>
              |ChildrenOf(z, nsKeys[i], sKeys, nsKeys)| ==
              Share(z.fileaudGenerated - z.fileaudSelected, z.DocarchNs(), i)
  {
    if i < |sKeys| { SelectedParentChildren(z, sKeys, nsKeys, i); }
    if i < |nsKeys| { OtherParentChildren(z, sKeys, nsKeys, i); }
  }

  lemma SelectedParentChildren(z: Sizes, sKeys: seq<nat>, nsKeys: seq<nat>, i: nat)
    requires z.Valid() && KeyLists(z, sKeys, nsKeys) && i < |sKeys|
    ensures |ChildrenOf(z, sKeys[i], sKeys, nsKeys)| == Share(z.fileaudSelected, z.docarchS, i)
  {
    var turns := Turns(0, z.fileaudSelected, z.docarchS, i);
    TurnsSize(0, z.fileaudSelected, z.docarchS, i);
    PreimageSize(FILEAUD_MULT, FILEAUD_ADD, z.fileaudGenerated, turns);
    forall m: nat
      ensures ParentOf(z, m, sKeys, nsKeys) == sKeys[i] <==> z.FileaudQ(m) in turns
    {
      ParentCohort(z, m, sKeys, nsKeys);
      assert sKeys[i] in sKeys;
      var q := z.FileaudQ(m);
      if q < z.fileaudSelected { SameKeyOnce(sKeys, q % |sKeys|, i); }
    }
    assert ChildrenOf(z, sKeys[i], sKeys, nsKeys) == Preimage(FILEAUD_MULT, FILEAUD_ADD, z.fileaudGenerated, turns);
  }

  lemma OtherParentChildren(z: Sizes, sKeys: seq<nat>, nsKeys: seq<nat>, i: nat)
    requires z.Valid() && KeyLists(z, sKeys, nsKeys) && i < |nsKeys|
    ensures |ChildrenOf(z, nsKeys[i], sKeys, nsKeys)| ==
            Share(z.fileaudGenerated - z.fileaudSelected, z.DocarchNs(), i)
  {
    var lo, rest := z.fileaudSelected, z.fileaudGenerated - z.fileaudSelected;
    var turns := Turns(lo, rest, z.DocarchNs(), i);
    TurnsSize(lo, rest, z.DocarchNs(), i);
    PreimageSize(FILEAUD_MULT, FILEAUD_ADD, z.fileaudGenerated, turns);
    forall m: nat
      ensures ParentOf(z, m, sKeys, nsKeys) == nsKeys[i] <==> z.FileaudQ(m) in turns
    {
      ParentCohort(z, m, sKeys, nsKeys);
      assert nsKeys[i] in nsKeys;
      var q := z.FileaudQ(m);
      if q >= lo { SameKeyOnce(nsKeys, (q - lo) % |nsKeys|, i); }
    }
    assert ChildrenOf(z, nsKeys[i], sKeys, nsKeys) == Preimage(FILEAUD_MULT, FILEAUD_ADD, z.fileaudGenerated, turns);
  }
}
