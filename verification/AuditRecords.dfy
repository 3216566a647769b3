/** The records of the audit file, generated and planted (migration/source/seed/tables.py). */
module AuditRecords {
  import opened ArchiveRecords
  import opened Calendar
  import opened Codecs
  import opened Cohorts
  import opened Convert
  import opened Digits
  import opened Mixer
  import opened PlantedRecords
  import opened Results
  import opened RoundTrip
  import opened SeedRecords
  import opened SeedRows
  import opened TextTables
  import opened Timestamps
  import opened TypeMap
  import SeedFiles

  // ---- the table ----

  const AUDIT_COLUMNS := 9
  const AUDIT_FILLER := 15
  const AUDIT_LRECL := 160

  function AuditCol(i: nat): Col
    requires i < AUDIT_COLUMNS
  {
    if i == 0 then Col("FA-AUD-KEY", "AUDIT_KEY", Chars, 20, false, false)
    else if i == 1 then Col("FA-ARCH-KEY", "ARCH_KEY", Chars, 16, true, false)
    else if i == 2 then Col("FA-EVT-TYPE", "EVENT_TYPE", Chars, 4, false, false)
    else if i == 3 then Col("FA-EVT-TS", "EVENT_TS", Time, 32, false, false)
    else if i == 4 then Col("FA-ACTOR", "ACTOR_ID", Chars, 12, false, false)
    else if i == 5 then Col("FA-RET-CLASS", "RETENTION_CLASS", Chars, 4, false, true)
    else if i == 6 then Col("FA-DISP-CD", "DISPOSITION_CODE", Chars, 2, false, false)
    else if i == 7 then Col("FA-CLIENT-IP", "CLIENT_IP", Chars, 15, true, false)
    else Col("FA-DETAIL", "DETAIL_TEXT", Chars, 40, true, false)
  }

  function AuditCols(): (cols: seq<Col>)
    ensures |cols| == AUDIT_COLUMNS && forall i :: 0 <= i < AUDIT_COLUMNS ==> cols[i] == AuditCol(i)
  {
    seq(AUDIT_COLUMNS, i requires 0 <= i < AUDIT_COLUMNS => AuditCol(i))
  }

  /** Length, fourth and last letter of a copybook name. */
  function FieldTag(i: nat): (nat, char, char)
    requires i < AUDIT_COLUMNS
  {
    if i == 0 then (10, 'A', 'Y') else if i == 1 then (11, 'A', 'Y') else if i == 2 then (11, 'E', 'E')
    else if i == 3 then (9, 'E', 'S') else if i == 4 then (8, 'A', 'R') else if i == 5 then (12, 'R', 'S')
    else if i == 6 then (10, 'D', 'D') else if i == 7 then (12, 'C', 'P') else (9, 'D', 'L')
  }

  /** Length, first and last letter of a column name. */
  function NameTag(i: nat): (nat, char, char)
    requires i < AUDIT_COLUMNS
  {
    if i == 0 then (9, 'A', 'Y') else if i == 1 then (8, 'A', 'Y') else if i == 2 then (10, 'E', 'E')
    else if i == 3 then (8, 'E', 'S') else if i == 4 then (8, 'A', 'D') else if i == 5 then (15, 'R', 'S')
    else if i == 6 then (16, 'D', 'E') else if i == 7 then (9, 'C', 'P') else (11, 'D', 'T')
  }

  lemma Tagged(i: nat)
    requires i < AUDIT_COLUMNS
    ensures var c, n := AuditCol(i).cobol, AuditCol(i).name;
            && |c| > 6 && (|c|, c[3], c[|c| - 1]) == FieldTag(i)
            && |n| > 6 && (|n|, n[0], n[|n| - 1]) == NameTag(i)
  {
  }

  lemma AuditNames(i: nat, j: nat)
    requires i < j < AUDIT_COLUMNS
    ensures AuditCol(i).name != AuditCol(j).name && AuditCol(i).cobol != AuditCol(j).cobol
  {
    Tagged(i);
    Tagged(j);
  }

  lemma AuditColIsCol(i: nat)
    requires i < AUDIT_COLUMNS
    ensures IsCol(AuditCol(i)) && Upper(AuditCol(i).cobol) != FILLER
  {
    Tagged(i);
  }

  lemma AuditAreCols()
    ensures AreCols(AuditCols())
  {
    var cols := AuditCols();
    forall i: nat | i < AUDIT_COLUMNS
      ensures IsCol(cols[i]) && Upper(cols[i].cobol) != FILLER
    {
      AuditColIsCol(i);
    }
    forall i: nat, j: nat | i < j < AUDIT_COLUMNS
      ensures cols[i].name != cols[j].name && cols[i].cobol != cols[j].cobol
    {
      AuditNames(i, j);
    }
  }

  lemma AuditLength()
    ensures BookOf(AuditCols(), AUDIT_FILLER).recordLength == AUDIT_LRECL
  {
    AuditWidths(AuditCols(), AUDIT_COLUMNS);
  }

  /** Where the columns start. */
  function AuditOffset(i: nat): nat {
    if i == 0 then 0 else if i == 1 then 20 else if i == 2 then 36 else if i == 3 then 40 else if i == 4 then 72
    else if i == 5 then 84 else if i == 6 then 88 else if i == 7 then 90 else if i == 8 then 105 else 145
  }

  lemma {:induction false} AuditWidths(cols: seq<Col>, i: nat)
    requires |cols| == AUDIT_COLUMNS && i <= AUDIT_COLUMNS
    requires forall k :: 0 <= k < AUDIT_COLUMNS ==> cols[k] == AuditCol(k)
    ensures Offset(cols, i) == AuditOffset(i)
  {
    if i == 0 {
    } else {
      AuditWidths(cols, i - 1);
      assert cols[i - 1] == AuditCol(i - 1);
    }
  }

  // ---- the rows ----

  datatype Audit = Audit(key: string, archKey: string, eventType: string, eventTs: string, actor: string, cls: Code,
                         clientIp: string, detail: string)

  function ContentOf(i: nat, a: Audit): Content {
    if i == 0 then Words(a.key)
    else if i == 1 then Words(a.archKey)
    else if i == 2 then Words(a.eventType)
    else if i == 3 then Words(a.eventTs)
    else if i == 4 then Words(a.actor)
    else if i == 5 then Words(CodeText(a.cls))
    else if i == 6 then Words("00")
    else if i == 7 then Words(a.clientIp)
    else Words(a.detail)
  }

  /** The columns by name, and what each of them holds. */
  lemma AuditByName(a: Audit, i: nat)
    requires i < 9
    ensures AuditCol(i).name ==
            ["AUDIT_KEY", "ARCH_KEY", "EVENT_TYPE", "EVENT_TS", "ACTOR_ID", "RETENTION_CLASS", "DISPOSITION_CODE",
             "CLIENT_IP", "DETAIL_TEXT"][i]
    ensures ContentOf(i, a) ==
            [Words(a.key), Words(a.archKey), Words(a.eventType), Words(a.eventTs), Words(a.actor),
             Words(CodeText(a.cls)), Words("00"), Words(a.clientIp), Words(a.detail)][i]
  {
  }

  function RowOfAudit(a: Audit): (row: seq<Content>)
    ensures |row| == AUDIT_COLUMNS && forall i :: 0 <= i < AUDIT_COLUMNS ==> row[i] == ContentOf(i, a)
  {
    seq(AUDIT_COLUMNS, i requires 0 <= i < AUDIT_COLUMNS => ContentOf(i, a))
  }

  const F_TYPE := 3
  const F_ACTOR := 5
  const F_IP2 := 45
  const F_IP3 := 46
  const F_IP4 := 47
  const ACTORS := 100_000_000_000
  const ACTOR_DIGITS := 11

  const EVENT_TYPES: seq<string> := ["VIEW", "DNLD", "HOLD", "RLSE", "DISP", "XPRT"]

  function ActorOf(s: Stream, m: nat): string { "U" + Padded(Pick(s, m, F_ACTOR, ACTORS), ACTOR_DIGITS) }

  function IpOf(a: nat, b: nat, c: nat): string { "10." + (Str(a) + ("." + (Str(b) + ("." + Str(c))))) }

  function ClientIp(s: Stream, m: nat): string {
    IpOf(Pick(s, m, F_IP2, 256), Pick(s, m, F_IP3, 256), Pick(s, m, F_IP4, 254) + 1)
  }

  function DetailOf(eventType: string, versionNo: nat): string { eventType + (" v" + Str(versionNo)) }

  /** The columns that a generated row and an orphan draw alike. */
  function AuditOf(s: Stream, m: nat, key: string, archKey: string, eventType: string, eventTs: string, cls: Code,
                   versionNo: nat): Audit
  {
    Audit(key, archKey, eventType, eventTs, ActorOf(s, m), cls, ClientIp(s, m), DetailOf(eventType, versionNo))
  }

  lemma StrPrints(n: nat)
    requires n < 1000
    ensures |Str(n)| <= 3 && Printable(Str(n))
  {
    assert Pow10(3) == 1000;
    NumDigitsBound(n, 3);
    DigitsPrint(Str(n));
  }

  lemma IpPrints(a: nat, b: nat, c: nat)
    requires a < 1000 && b < 1000 && c < 1000
    ensures Short(IpOf(a, b, c), 15)
  {
    StrPrints(a);
    StrPrints(b);
    StrPrints(c);
    var tail := "." + Str(c);
    BothPrint(".", Str(c));
    BothPrint(Str(b), tail);
    BothPrint(".", Str(b) + tail);
    BothPrint(Str(a), "." + (Str(b) + tail));
    BothPrint("10.", Str(a) + ("." + (Str(b) + tail)));
  }

  lemma ClientIpPrints(s: Stream, m: nat)
    ensures Short(ClientIp(s, m), 15)
  {
    IpPrints(Pick(s, m, F_IP2, 256), Pick(s, m, F_IP3, 256), Pick(s, m, F_IP4, 254) + 1);
  }

  lemma DetailPrints(eventType: string, versionNo: nat)
    requires Short(eventType, 4) && versionNo < 1000
    ensures Short(DetailOf(eventType, versionNo), 40)
  {
    StrPrints(versionNo);
    BothPrint(" v", Str(versionNo));
    BothPrint(eventType, " v" + Str(versionNo));
  }

  lemma ActorPrints(s: Stream, m: nat)
    ensures Short(ActorOf(s, m), 12)
  {
    ActorRange();
    var n := Pick(s, m, F_ACTOR, ACTORS);
    ValueOfPadded(n, ACTOR_DIGITS);
    DigitsPrint(Padded(n, ACTOR_DIGITS));
    BothPrint("U", Padded(n, ACTOR_DIGITS));
  }

  lemma ActorRange()
    ensures Pow10(ACTOR_DIGITS) == ACTORS
  {
    assert Pow10(5) == 100_000;
    Pow10Add(5, 6);
    assert Pow10(6) == 1_000_000;
  }

  lemma NoDisposition()
    ensures Short("00", 2)
  {
  }

  /** Every column of an audit row fits. */
  ghost predicate Fits(a: Audit) {
    && Short(a.key, 20) && Short(a.archKey, 16) && Short(a.eventType, 4) && IsTimestamp(a.eventTs) && Short(a.actor, 12)
    && Short(a.clientIp, 15) && Short(a.detail, 40)
  }

  lemma AuditFits(a: Audit, i: nat)
    requires i < AUDIT_COLUMNS && Fits(a)
    ensures FitsCol(AuditCol(i), ContentOf(i, a))
  {
    if i == 5 {
      CodeTextPrints(a.cls);
    } else if i == 6 {
      NoDisposition();
    }
  }

  lemma DrawnFits(s: Stream, m: nat, key: string, archKey: string, eventType: string, eventTs: string, cls: Code,
                  versionNo: nat)
    requires Short(key, 20) && Short(archKey, 16) && Short(eventType, 4) && IsTimestamp(eventTs) && versionNo < 1000
    ensures Fits(AuditOf(s, m, key, archKey, eventType, eventTs, cls, versionNo))
  {
    ActorPrints(s, m);
    ClientIpPrints(s, m);
    DetailPrints(eventType, versionNo);
    WithFits(key, archKey, eventType, eventTs, ActorOf(s, m), cls, ClientIp(s, m), DetailOf(eventType, versionNo));
  }

  lemma WithFits(key: string, archKey: string, eventType: string, eventTs: string, actor: string, cls: Code,
                 clientIp: string, detail: string)
    requires Short(key, 20) && Short(archKey, 16) && Short(eventType, 4) && IsTimestamp(eventTs) && Short(actor, 12)
    requires Short(clientIp, 15) && Short(detail, 40)
    ensures Fits(Audit(key, archKey, eventType, eventTs, actor, cls, clientIp, detail))
  {
  }

  /** The record of an audit row has 160 bytes, and the job reads its key and every column from it. */
  ghost predicate AuditReads(a: Audit, ascii: Codec, py: Python) {
    var lrecl := BookOf(AuditCols(), AUDIT_FILLER).recordLength;
    lrecl == AUDIT_LRECL && ReadsWhole(AuditCols(), RowOfAudit(a), a.key, lrecl, ascii, py)
  }

  lemma AuditRowFits(a: Audit)
    requires Fits(a)
    ensures FitsTable(AuditCols(), RowOfAudit(a))
  {
    forall i: nat | i < AUDIT_COLUMNS
      ensures FitsCol(AuditCols()[i], RowOfAudit(a)[i])
    {
      AuditFits(a, i);
    }
  }

  lemma AuditKeyFills(a: Audit)
    requires |a.key| == 20
    ensures KeyFills(AuditCols(), RowOfAudit(a)) && RowOfAudit(a)[0].text == a.key
  {
    assert RowOfAudit(a)[0] == ContentOf(0, a) && AuditCols()[0] == AuditCol(0);
  }

  /** The record of every audit row that fits is read back whole. */
  lemma AuditRecordReads(a: Audit, ascii: Codec, py: Python)
    requires Fits(a) && |a.key| == 20 && Prints(ascii, ASCII_BLANK)
    ensures AuditReads(a, ascii, py)
  {
    AuditAreCols();
    AuditLength();
    AuditKeyFills(a);
    AuditRowFits(a);
    TextRecordReads(AuditCols(), AUDIT_FILLER, RowOfAudit(a), a.key, ascii, py);
  }

  // ---- generated rows ----

  /** A child of an archive row, drawn from the row and the second of its event. */
  function ChildAudit(m: nat, parent: DocarchRow, secs: int): Audit {
    AuditOf(FILEAUD, m, FileaudFileKey(m + 1, m), parent.archKey, EVENT_TYPES[Pick(FILEAUD, m, F_TYPE, 6)],
            OrBlank(Ts12(secs, parent.lastAccessFrac)), parent.retentionClass, parent.versionNo)
  }

  /** `fileaud_generated_row`. */
  function GeneratedAudit(z: Sizes, m: nat, sKeys: seq<nat>, nsKeys: seq<nat>): Audit
    requires z.Valid() && KeyLists(z, sKeys, nsKeys)
  {
    var parent := ParentRow(z, m, sKeys, nsKeys);
    ChildAudit(m, parent, EventSecs(m, parent))
  }

  function ParentRow(z: Sizes, m: nat, sKeys: seq<nat>, nsKeys: seq<nat>): (parent: DocarchRow)
    requires z.Valid() && KeyLists(z, sKeys, nsKeys)
    ensures parent.cohort == R ==> parent.lastAccessSecs >= T2019
  {
    DocarchGenerated(z, ParentOf(z, m, sKeys, nsKeys))
  }

  lemma EventTypePrints(k: nat)
    requires k < 6
    ensures Short(EVENT_TYPES[k], 4)
  {
  }

  lemma TsIsTimestamp(secs: int, frac: nat)
    requires InRange(secs) && frac < FRAC
    ensures IsTimestamp(OrBlank(Ts12(secs, frac)))
  {
    TimeGmOfGmTime(secs);
    CanonicalIsAccepted(GmTime(secs).value, frac);
  }

  lemma AuditKeyPrints(n: nat, m: nat)
    requires m < n + ORPHANS && n < Pow10(AUDIT_KEY_DIGITS)
    ensures |FileaudFileKey(n, m)| == 20 && Printable(FileaudFileKey(n, m))
  {
    if m < n {
      ValueOfPadded(m + 1, AUDIT_KEY_DIGITS);
      DigitsPrint(Padded(m + 1, AUDIT_KEY_DIGITS));
      BothPrint("FA", Padded(m + 1, AUDIT_KEY_DIGITS));
    } else {
      FewOrphans();
      ValueOfPadded(m - n + 1, ORPHAN_KEY_DIGITS);
      DigitsPrint(Padded(m - n + 1, ORPHAN_KEY_DIGITS));
      assert Printable("MIG05-");
      BothPrint("MIG05-", Padded(m - n + 1, ORPHAN_KEY_DIGITS));
    }
  }

  lemma ParentColumns(z: Sizes, m: nat, sKeys: seq<nat>, nsKeys: seq<nat>)
    requires z.Valid() && KeyLists(z, sKeys, nsKeys) && z.docarchGenerated < Pow10(KEY_DIGITS)
    ensures var parent := ParentRow(z, m, sKeys, nsKeys);
            && Short(parent.archKey, 16) && parent.versionNo < 10
            && IsTimestamp(OrBlank(Ts12(EventSecs(m, parent), parent.lastAccessFrac)))
  {
    var p := ParentOf(z, m, sKeys, nsKeys);
    var parent := DocarchGenerated(z, p);
    ParentCohort(z, m, sKeys, nsKeys);
    KeyPrints(p);
    BaseRanges(DOCARCH, p, DocarchKey(p), z.DocarchCohort(p));
    EventWindow(z, m, sKeys, nsKeys);
    TsIsTimestamp(EventSecs(m, parent), parent.lastAccessFrac);
  }

  lemma ChildFits(m: nat, parent: DocarchRow, secs: int)
    requires Short(parent.archKey, 16) && parent.versionNo < 10 && IsTimestamp(OrBlank(Ts12(secs, parent.lastAccessFrac)))
    requires m + 1 < Pow10(AUDIT_KEY_DIGITS)
    ensures Fits(ChildAudit(m, parent, secs)) && |ChildAudit(m, parent, secs).key| == 20
  {
    AuditKeyPrints(m + 1, m);
    EventTypePrints(Pick(FILEAUD, m, F_TYPE, 6));
    DrawnFits(FILEAUD, m, FileaudFileKey(m + 1, m), parent.archKey, EVENT_TYPES[Pick(FILEAUD, m, F_TYPE, 6)],
              OrBlank(Ts12(secs, parent.lastAccessFrac)), parent.retentionClass, parent.versionNo);
  }

  lemma GeneratedFits(z: Sizes, m: nat, sKeys: seq<nat>, nsKeys: seq<nat>)
    requires z.Valid() && KeyLists(z, sKeys, nsKeys) && z.docarchGenerated < Pow10(KEY_DIGITS)
    requires m < z.fileaudGenerated < Pow10(AUDIT_KEY_DIGITS)
    ensures Fits(GeneratedAudit(z, m, sKeys, nsKeys)) && |GeneratedAudit(z, m, sKeys, nsKeys).key| == 20
    ensures GeneratedAudit(z, m, sKeys, nsKeys).key == FileaudFileKey(z.fileaudGenerated, m)
  {
    ParentColumns(z, m, sKeys, nsKeys);
    var parent := ParentRow(z, m, sKeys, nsKeys);
    ChildFits(m, parent, EventSecs(m, parent));
  }

  /** So the record of every generated audit row is read back whole. */
  lemma GeneratedAuditReads(z: Sizes, m: nat, sKeys: seq<nat>, nsKeys: seq<nat>, ascii: Codec, py: Python)
    requires z.Valid() && KeyLists(z, sKeys, nsKeys) && z.docarchGenerated < Pow10(KEY_DIGITS)
    requires m < z.fileaudGenerated < Pow10(AUDIT_KEY_DIGITS) && Prints(ascii, ASCII_BLANK)
    ensures AuditReads(GeneratedAudit(z, m, sKeys, nsKeys), ascii, py)
  {
    GeneratedFits(z, m, sKeys, nsKeys);
    AuditRecordReads(GeneratedAudit(z, m, sKeys, nsKeys), ascii, py);
  }

  /** What a row draws besides its key, type, time and class. */
  lemma AuditDrawn(s: Stream, m: nat, key: string, archKey: string, eventType: string, eventTs: string, cls: Code,
                   version: nat)
    ensures var a := AuditOf(s, m, key, archKey, eventType, eventTs, cls, version);
            && a.key == key && a.archKey == archKey && a.eventType == eventType && a.eventTs == eventTs && a.cls == cls
            && a.actor == "U" + Padded(Pick(s, m, 5, 100_000_000_000), 11)
            && a.clientIp == "10." + (Str(Pick(s, m, 45, 256)) + ("." + (Str(Pick(s, m, 46, 256)) + ("." +
                                     Str(Pick(s, m, 47, 254) + 1)))))
            && a.detail == eventType + (" v" + Str(version))
  {
  }

  lemma EventTypesListed(k: nat)
    requires k < 6
    ensures |EVENT_TYPES| == 6 && EVENT_TYPES[k] == ["VIEW", "DNLD", "HOLD", "RLSE", "DISP", "XPRT"][k]
  {
  }

  // ---- the orphans ----

  function OrphanMoment(m: nat): Moment { Moment(Date(2017, 5, m + 1), 7, 0, 0) }

  /** The version of the orphan's parent, which is drawn like any other row's. */
  function ParentVersion(m: nat): (v: nat)
    ensures v < MOST_VERSIONS
  {
    DocarchBase(PLANTED, SeedFiles.PARENTS_FROM + m, "", S).versionNo
  }

  /** `planted_fileaud_rows`: the orphan `m`, whose parent is planted but not selected. */
  function OrphanAudit(m: nat): Audit
    requires m < ORPHANS
  {
    AuditOf(PLANTED, m, FileaudFileKey(0, m), SeedFiles.PlantedKey(SeedFiles.PARENTS_FROM + m), "VIEW",
            MomentText(OrphanMoment(m), 0), FIN7, ParentVersion(m))
  }

  lemma OrphanIsTimestamp(m: nat)
    requires m < ORPHANS
    ensures IsTimestamp(MomentText(OrphanMoment(m), 0))
  {
    CanonicalIsAccepted(OrphanMoment(m), 0);
  }

  lemma OrphanTypePrints()
    ensures Short("VIEW", 4)
  {
  }

  lemma OrphanFits(m: nat)
    requires m < ORPHANS
    ensures Fits(OrphanAudit(m)) && |OrphanAudit(m).key| == 20
  {
    PlantedKeyPrints(SeedFiles.PARENTS_FROM + m);
    AuditKeyPrints(0, m);
    OrphanTypePrints();
    OrphanIsTimestamp(m);
    DrawnFits(PLANTED, m, FileaudFileKey(0, m), SeedFiles.PlantedKey(SeedFiles.PARENTS_FROM + m), "VIEW",
              MomentText(OrphanMoment(m), 0), FIN7, ParentVersion(m));
  }

  /** So is the record of every orphan. */
  lemma OrphanAuditReads(m: nat, ascii: Codec, py: Python)
    requires m < ORPHANS && Prints(ascii, ASCII_BLANK)
    ensures AuditReads(OrphanAudit(m), ascii, py)
  {
    OrphanFits(m);
    AuditRecordReads(OrphanAudit(m), ascii, py);
  }
}
