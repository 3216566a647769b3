/** The records of the policy table (migration/source/seed/spec.py, migration/source/seed/tables.py). */
module PolicyRecords {
  import opened ArchiveRecords
  import opened Calendar
  import opened Codecs
  import opened Convert
  import opened SeedRecords
  import opened SeedRows
  import opened TextTables
  import opened Timestamps
  import opened TypeMap

  // ---- the table ----

  const POLICY_COLUMNS := 7
  const POLICY_FILLER := 21
  const POLICY_LRECL := 128

  function PolicyCol(i: nat): Col
    requires i < POLICY_COLUMNS
  {
    if i == 0 then Col("RP-POLICY-CD", "POLICY_CODE", Chars, 4, false, false)
    else if i == 1 then Col("RP-POLICY-DESC", "POLICY_DESC", Chars, 60, true, false)
    else if i == 2 then Col("RP-RET-YEARS", "RETENTION_YEARS", Small, 2, false, false)
    else if i == 3 then Col("RP-SUCCESSOR-CD", "SUCCESSOR_CODE", Chars, 4, false, false)
    else if i == 4 then Col("RP-ACTIVE-FLG", "ACTIVE_FLAG", Chars, 1, false, false)
    else if i == 5 then Col("RP-DISP-ACTION", "DISPOSITION_ACTION", Chars, 4, false, false)
    else Col("RP-EFFECTIVE-TS", "EFFECTIVE_TS", Time, 32, false, false)
  }

  function PolicyCols(): (cols: seq<Col>)
    ensures |cols| == POLICY_COLUMNS && forall i :: 0 <= i < POLICY_COLUMNS ==> cols[i] == PolicyCol(i)
  {
    seq(POLICY_COLUMNS, i requires 0 <= i < POLICY_COLUMNS => PolicyCol(i))
  }

  /** Length and last letter of a copybook name and of a column name. */
  function PolicyTag(i: nat): (nat, char, nat, char)
    requires i < POLICY_COLUMNS
  {
    if i == 0 then (12, 'D', 11, 'E') else if i == 1 then (14, 'C', 11, 'C') else if i == 2 then (12, 'S', 15, 'S')
    else if i == 3 then (15, 'D', 14, 'E') else if i == 4 then (13, 'G', 11, 'G') else if i == 5 then (14, 'N', 18, 'N')
    else (15, 'S', 12, 'S')
  }

  lemma PolicyTagged(i: nat)
    requires i < POLICY_COLUMNS
    ensures var c, n := PolicyCol(i).cobol, PolicyCol(i).name;
            |c| > 6 && |n| > 6 && (|c|, c[|c| - 1], |n|, n[|n| - 1]) == PolicyTag(i)
  {
  }

  lemma PolicyNames(i: nat, j: nat)
    requires i < j < POLICY_COLUMNS
    ensures PolicyCol(i).name != PolicyCol(j).name && PolicyCol(i).cobol != PolicyCol(j).cobol
  {
    PolicyTagged(i);
    PolicyTagged(j);
  }

  lemma PolicyColIsCol(i: nat)
    requires i < POLICY_COLUMNS
    ensures IsCol(PolicyCol(i)) && Upper(PolicyCol(i).cobol) != FILLER
  {
    PolicyTagged(i);
  }

  /** Where the columns start. */
  function PolicyOffset(i: nat): nat {
    if i == 0 then 0 else if i == 1 then 4 else if i == 2 then 64 else if i == 3 then 66 else if i == 4 then 70
    else if i == 5 then 71 else if i == 6 then 75 else 107
  }

  lemma {:induction false} PolicyWidths(cols: seq<Col>, i: nat)
    requires |cols| == POLICY_COLUMNS && i <= POLICY_COLUMNS
    requires forall k :: 0 <= k < POLICY_COLUMNS ==> cols[k] == PolicyCol(k)
    ensures Offset(cols, i) == PolicyOffset(i)
  {
    if i == 0 {
    } else {
      PolicyWidths(cols, i - 1);
      assert cols[i - 1] == PolicyCol(i - 1);
    }
  }

  lemma PolicyAreCols()
    ensures AreCols(PolicyCols())
  {
    var cols := PolicyCols();
    forall i: nat | i < POLICY_COLUMNS
      ensures IsCol(cols[i]) && Upper(cols[i].cobol) != FILLER
    {
      PolicyColIsCol(i);
    }
    forall i: nat, j: nat | i < j < POLICY_COLUMNS
      ensures cols[i].name != cols[j].name && cols[i].cobol != cols[j].cobol
    {
      PolicyNames(i, j);
    }
  }

  lemma PolicyLength()
    ensures BookOf(PolicyCols(), POLICY_FILLER).recordLength == POLICY_LRECL
  {
    PolicyWidths(PolicyCols(), POLICY_COLUMNS);
  }

  // ---- the rows ----

  function Successor(c: Code): string { if Active(c) then "" else CodeText(SystemOfRecordClass(c)) }

  function Flag(c: Code): string { if Active(c) then "Y" else "N" }

  function DispositionAction(c: Code): string {
    if c == PERM then "PERM" else if RetentionYears(c) == 9 then "REVW" else "DEST"
  }

  function EffectiveTs(): string { MomentText(Moment(Date(2010, 1, 1), 0, 0, 0), 0) }

  function PolicyContent(i: nat, c: Code, description: string): Content {
    if i == 0 then Words(CodeText(c))
    else if i == 1 then Words(description)
    else if i == 2 then Count(RetentionYears(c))
    else if i == 3 then Words(Successor(c))
    else if i == 4 then Words(Flag(c))
    else if i == 5 then Words(DispositionAction(c))
    else Words(EffectiveTs())
  }

  /** The columns by name, and what each of them holds. */
  lemma PolicyByName(c: Code, description: string, i: nat)
    requires i < 7
    ensures PolicyCol(i).name ==
            ["POLICY_CODE", "POLICY_DESC", "RETENTION_YEARS", "SUCCESSOR_CODE", "ACTIVE_FLAG", "DISPOSITION_ACTION",
             "EFFECTIVE_TS"][i]
    ensures PolicyContent(i, c, description) ==
            [Words(CodeText(c)), Words(description), Count(RetentionYears(c)),
             Words(if Active(c) then "" else CodeText(SystemOfRecordClass(c))), Words(if Active(c) then "Y" else "N"),
             Words(DispositionAction(c)), Words(EffectiveTs())][i]
  {
  }

  /** Retired codes name their successor and are not active. */
  lemma RetiredListed(c: Code, description: string)
    ensures PolicyContent(3, F07R, description) == Words("FIN7") && PolicyContent(3, L07R, description) == Words("LGL7")
    ensures PolicyContent(3, H07R, description) == Words("HRS7")
    ensures PolicyContent(4, c, description) == Words("N") <==> c == F07R || c == L07R || c == H07R
  {
  }

  /** Permanent records are kept, those of nine years reviewed, and all others destroyed. */
  lemma ActionsListed(c: Code)
    ensures DispositionAction(c) ==
            if RetentionYears(c) == 99 then "PERM" else if RetentionYears(c) == 9 then "REVW" else "DEST"
  {
  }

  function PolicyRow(c: Code, description: string): (row: seq<Content>)
    ensures |row| == POLICY_COLUMNS && forall i :: 0 <= i < POLICY_COLUMNS ==> row[i] == PolicyContent(i, c, description)
  {
    seq(POLICY_COLUMNS, i requires 0 <= i < POLICY_COLUMNS => PolicyContent(i, c, description))
  }

  const LONGEST_DESCRIPTION := 60

  lemma ActionPrints(c: Code)
    ensures Short(DispositionAction(c), 4) && Short(Flag(c), 1)
  {
  }

  lemma SuccessorPrints(c: Code)
    ensures Short(Successor(c), 4)
  {
    if !Active(c) { CodeTextPrints(SystemOfRecordClass(c)); }
  }

  lemma YearsSmall(c: Code)
    ensures RetentionYears(c) < MOST_YEARS
  {
  }

  lemma PolicyFits(c: Code, description: string, i: nat)
    requires i < POLICY_COLUMNS && Short(description, LONGEST_DESCRIPTION)
    ensures FitsCol(PolicyCol(i), PolicyContent(i, c, description))
  {
    if i == 0 {
      CodeTextPrints(c);
    } else if i == 2 {
      YearsSmall(c);
    } else if i == 3 {
      SuccessorPrints(c);
    } else if i == 4 || i == 5 {
      ActionPrints(c);
    } else if i == 6 {
      CanonicalIsAccepted(Moment(Date(2010, 1, 1), 0, 0, 0), 0);
    }
  }

  lemma PolicyRowFits(c: Code, description: string)
    requires Short(description, LONGEST_DESCRIPTION)
    ensures FitsTable(PolicyCols(), PolicyRow(c, description)) && KeyFills(PolicyCols(), PolicyRow(c, description))
    ensures PolicyRow(c, description)[0].text == CodeText(c)
  {
    forall i: nat | i < POLICY_COLUMNS
      ensures FitsCol(PolicyCols()[i], PolicyRow(c, description)[i])
    {
      PolicyFits(c, description, i);
    }
    CodeTextPrints(c);
    assert PolicyRow(c, description)[0] == PolicyContent(0, c, description) && PolicyCols()[0] == PolicyCol(0);
  }

  /**
   * The record of every policy has 128 bytes, whatever its description of at most sixty printable characters, and the
   * job reads its code and every column from it.
   */
  lemma PolicyRecordReads(c: Code, description: string, ascii: Codec, py: Python)
    requires Prints(ascii, ASCII_BLANK) && Short(description, LONGEST_DESCRIPTION)
    ensures BookOf(PolicyCols(), POLICY_FILLER).recordLength == POLICY_LRECL
    ensures ReadsWhole(PolicyCols(), PolicyRow(c, description), CodeText(c),
                       BookOf(PolicyCols(), POLICY_FILLER).recordLength, ascii, py)
  {
    PolicyAreCols();
    PolicyLength();
    PolicyRowFits(c, description);
    TextRecordReads(PolicyCols(), POLICY_FILLER, PolicyRow(c, description), CodeText(c), ascii, py);
  }
}
