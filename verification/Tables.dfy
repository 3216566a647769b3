/**
 * A table that is written down field by field: what the parser makes of its copybook, what the type map makes of its
 * columns, and what a record that the seed joins for one of its rows converts to.
 */
module Tables {
  import opened Convert
  import opened Copybook
  import opened Encode
  import opened Results
  import opened RoundTrip
  import opened SeedRecords
  import opened Texts
  import opened TypeMap

  // ---- the copybook ----

  function WordOf(u: Usage): Option<UsageWord> {
    match u
    case Display => None
    case Comp => Some(CompWord)
    case Comp3 => Some(Comp3Word)
  }

  const ITEM_LEVEL := 5

  /** What the item pattern finds in the statement of a field. */
  function ItemOf(f: Field): Item { Item(ITEM_LEVEL, f.name, Some(f.pic), WordOf(f.usage), false) }

  function Statement(line: string): string { Continued("", line) }

  predicate IsGroup(m: Option<Item>) { m.Some? && m.value.level == 1 && m.value.pic.None? }

  /** Every line is one statement: first that of the record, then those of the fields. */
  ghost predicate Describes(lines: seq<string>, item: string -> Option<Item>, fields: seq<Field>) {
    && |lines| == |fields| + 1
    && (forall i :: 0 <= i < |lines| ==> EndsStatement(Statement(lines[i])))
    && IsGroup(item(Statement(lines[0])))
    && (forall i :: 0 < i < |lines| ==> item(Statement(lines[i])) == Some(ItemOf(fields[i - 1])))
  }

  function StatementsOf(lines: seq<string>): (stmts: seq<string>)
    ensures |stmts| == |lines|
  {
    seq(|lines|, i requires 0 <= i < |lines| => Statement(lines[i]))
  }

  lemma {:induction false} OneEach(lines: seq<string>)
    requires forall i :: 0 <= i < |lines| ==> EndsStatement(Statement(lines[i]))
    ensures Statements(lines) == (StatementsOf(lines), "")
  {
    if lines == [] {
    } else {
      var front := lines[..|lines| - 1];
      OneEach(front);
      assert StatementsOf(lines) == StatementsOf(front) + [Statement(lines[|lines| - 1])];
    }
  }

  /** One more statement gives one more field. */
  lemma FieldsNext(front: seq<string>, stmt: string, item: string -> Option<Item>, fields: seq<Field>, k: nat)
    requires k < |fields| && Laid(fields, k) && WellFormed(fields[k]) && item(stmt) == Some(ItemOf(fields[k]))
    requires FieldsOf(front, item) == Ok((fields[..k], EndBefore(fields, k)))
    ensures FieldsOf(front + [stmt], item) == Ok((fields[..k + 1], EndBefore(fields, k + 1)))
  {
    FieldStatement(stmt, item, fields[k]);
    NextStatement(front, stmt, item);
    assert fields[..k + 1] == fields[..k] + [fields[k]];
  }

  /** The first `n` statements give the fields before it, end to end. */
  lemma {:induction false} FieldsEach(lines: seq<string>, item: string -> Option<Item>, fields: seq<Field>, n: nat)
    requires Describes(lines, item, fields) && 0 < n <= |lines|
    requires (forall f :: f in fields ==> WellFormed(f)) && (forall i :: 0 <= i < |fields| ==> Laid(fields, i))
    ensures FieldsOf(StatementsOf(lines)[..n], item) == Ok((fields[..n - 1], EndBefore(fields, n - 1)))
  {
    var stmts := StatementsOf(lines);
    assert stmts[..n] == stmts[..n - 1] + [stmts[n - 1]];
    if n == 1 {
      GroupFirst(stmts[0], item);
    } else {
      FieldsEach(lines, item, fields, n - 1);
      assert fields[n - 2] in fields && Laid(fields, n - 2);
      FieldsNext(stmts[..n - 1], stmts[n - 1], item, fields, n - 2);
    }
  }

  lemma GroupFirst(stmt: string, item: string -> Option<Item>)
    requires IsGroup(item(stmt))
    ensures FieldsOf([] + [stmt], item) == Ok(([], 0))
  {
    NextStatement([], stmt, item);
  }

  /** The statement of a field gives its name, clause and layout. */
  lemma FieldStatement(stmt: string, item: string -> Option<Item>, f: Field)
    requires item(stmt) == Some(ItemOf(f)) && WellFormed(f)
    ensures ParseStatement(stmt, item) == Ok(Elementary(f.name, f.pic, f.usage, f.layout))
  {
    assert NormalizeUsage(WordOf(f.usage)) == f.usage;
  }

  /** The copybook of the fields is what its source text parses to. */
  lemma CopybookParses(lines: seq<string>, item: string -> Option<Item>, book: Copybook)
    requires Describes(lines, item, book.fields) && Tiles(book.fields, book.recordLength) && book.fields != []
    ensures Parse(lines, item, Some(book.recordLength)) == Ok(book)
  {
    OneEach(lines);
    FieldsEach(lines, item, book.fields, |lines|);
    assert StatementsOf(lines)[..|lines|] == StatementsOf(lines);
    assert book.fields[..|book.fields|] == book.fields;
  }

  // ---- the columns ----

  /** The columns are what the type map builds from the entries of the field map. */
  lemma {:induction false} ColumnsBuilt(book: Copybook, entries: seq<Entry>, specs: seq<ColumnSpec>)
    requires |specs| == |entries| && forall i :: 0 <= i < |specs| ==> BuildEntry(book, entries[i]) == Ok(specs[i])
    ensures BuildEntries(book, entries) == Ok(specs)
  {
    if entries == [] {
    } else {
      ColumnsBuilt(book, entries[..|entries| - 1], specs[..|specs| - 1]);
      assert specs == specs[..|specs| - 1] + [specs[|specs| - 1]];
    }
  }

  /** Fields with different names are found by their names. */
  lemma {:induction false} FieldFound(fields: seq<Field>, i: nat)
    requires i < |fields| && forall j :: 0 <= j < i ==> fields[j].name != fields[i].name
    ensures FindField(fields, fields[i].name) == Some(fields[i])
  {
    if i == 0 {
    } else {
      assert fields[0].name != fields[i].name;
      FieldFound(fields[1..], i - 1);
    }
  }

  // ---- the rows ----

  /** The values of a row, keyed by its columns. */
  ghost function RowOf(specs: seq<ColumnSpec>, values: seq<SourceValue>): map<string, SourceValue>
    requires |specs| == |values|
  {
    if specs == [] then map[]
    else RowOf(specs[..|specs| - 1], values[..|specs| - 1])[specs[|specs| - 1].name := values[|specs| - 1]]
  }

  lemma {:induction false} RowHas(specs: seq<ColumnSpec>, values: seq<SourceValue>, i: nat)
    requires |specs| == |values| && DistinctColumns(specs) && i < |specs|
    ensures Get(RowOf(specs, values), specs[i].name) == Some(values[i])
  {
    if i == |specs| - 1 {
    } else {
      RowHas(specs[..|specs| - 1], values[..|specs| - 1], i);
    }
  }

  /** Each part of the record stands for the value of its column and is not refused. */
  ghost predicate PartsStand(parts: seq<Part>, values: seq<SourceValue>, specs: seq<ColumnSpec>) {
    && |parts| == |values| == |specs|
    && forall i :: 0 <= i < |parts| ==> StandsFor(parts[i], values[i], specs[i]) && Emitted(parts[i]).Some?
  }

  lemma RowStands(parts: seq<Part>, values: seq<SourceValue>, specs: seq<ColumnSpec>)
    requires PartsStand(parts, values, specs) && DistinctColumns(specs)
    ensures RowParts(parts, RowOf(specs, values), specs)
  {
    forall i | 0 <= i < |parts|
      ensures Get(RowOf(specs, values), specs[i].name) == Some(values[i])
    {
      RowHas(specs, values, i);
    }
  }

  /** The first column is the key, a text that fills its field. */
  ghost predicate KeyFirst(specs: seq<ColumnSpec>, values: seq<SourceValue>, key: string) {
    && |specs| == |values| > 0 && (forall i :: 0 <= i < |specs| ==> (specs[i].isKey <==> i == 0))
    && !specs[0].field.layout.isNumeric && values[0] == SText(key) && |key| == specs[0].field.layout.length
  }

  /** The first `n` columns of a row are accepted, and the next one, if there is any, is rejected. */
  ghost predicate AcceptsUpTo(specs: seq<ColumnSpec>, values: seq<SourceValue>, py: Python, n: nat) {
    && n <= |specs| == |values|
    && (forall i :: 0 <= i < n ==> Expected(Some(values[i]), specs[i], py).Ok?)
    && (n < |specs| ==> Expected(Some(values[n]), specs[n], py).Err?)
  }

  ghost predicate CellHolds(c: Columns, spec: ColumnSpec, v: SourceValue, py: Python) {
    && Expected(Some(v), spec, py).Ok? && spec.name in c.values && spec.name in c.texts
    && (c.values[spec.name], c.texts[spec.name]) == Expected(Some(v), spec, py).value
  }

  /**
   * What a record converts to: its key, the cells of the first `n` columns and of no others, and, if there is a next
   * column, the rule that rejects it.
   */
  ghost predicate ReadsAs(r: Result<Converted, KeyError>, key: string, specs: seq<ColumnSpec>, values: seq<SourceValue>,
                          py: Python, n: nat)
    requires AcceptsUpTo(specs, values, py, n)
  {
    && r.Ok? && r.value.sourceKey == key
    && (forall i :: 0 <= i < n ==> CellHolds(r.value.columns, specs[i], values[i], py))
    && (forall name :: name in r.value.columns.values <==> exists i :: 0 <= i < n && specs[i].name == name)
    && r.value.columns.error ==
       if n == |specs| then None else Some(FieldError(specs[n].name, Expected(Some(values[n]), specs[n], py).error))
  }

  lemma KeyRead(specs: seq<ColumnSpec>, values: seq<SourceValue>, key: string, py: Python)
    requires KeyFirst(specs, values, key) && DistinctColumns(specs)
    ensures ExpectedKey(RowOf(specs, values), specs, py) == Some([key])
  {
    RowHas(specs, values, 0);
    FirstIsKey(RowOf(specs, values), specs, py);
  }

  lemma OutcomesAre(specs: seq<ColumnSpec>, values: seq<SourceValue>, py: Python, n: nat)
    requires DistinctColumns(specs) && AcceptsUpTo(specs, values, py, n)
    ensures var os := ExpectedOutcomes(RowOf(specs, values), specs, py);
            && DistinctNames(os) && Accepted(os) == n
            && forall i :: 0 <= i < |specs| ==> os[i] == Outcome(specs[i].name, Expected(Some(values[i]), specs[i], py))
  {
    var os := ExpectedOutcomes(RowOf(specs, values), specs, py);
    forall i | 0 <= i < |specs|
      ensures os[i] == Outcome(specs[i].name, Expected(Some(values[i]), specs[i], py))
    {
      RowHas(specs, values, i);
    }
    AcceptedIs(os, n);
  }

  lemma {:induction false} AcceptedIs(os: seq<Outcome>, n: nat)
    requires n <= |os| && (forall i :: 0 <= i < n ==> os[i].result.Ok?) && (n < |os| ==> os[n].result.Err?)
    ensures Accepted(os) == n
  {
    if n == 0 {
    } else {
      AcceptedIs(os[1..], n - 1);
    }
  }

  /** The columns that are expected of a row. */
  lemma ExpectedColumns(values: seq<SourceValue>, specs: seq<ColumnSpec>, py: Python, n: nat)
    requires DistinctColumns(specs) && AcceptsUpTo(specs, values, py, n)
    ensures var c := Collect(ExpectedOutcomes(RowOf(specs, values), specs, py));
            && (forall i :: 0 <= i < n ==> CellHolds(c, specs[i], values[i], py))
            && (forall name :: name in c.values <==> exists i :: 0 <= i < n && specs[i].name == name)
            && c.error ==
               if n == |specs| then None else Some(FieldError(specs[n].name, Expected(Some(values[n]), specs[n], py).error))
  {
    var os := ExpectedOutcomes(RowOf(specs, values), specs, py);
    OutcomesAre(specs, values, py, n);
    FirstFailingColumn(os);
    forall i | 0 <= i < n
      ensures CellHolds(Collect(os), specs[i], values[i], py)
    {
      assert Holds(Collect(os), os[i]);
    }
    SameNames(Collect(os).values.Keys, os, specs, n);
  }

  lemma ExpectedReads(values: seq<SourceValue>, specs: seq<ColumnSpec>, key: string, py: Python, n: nat)
    requires DistinctColumns(specs) && KeyFirst(specs, values, key) && AcceptsUpTo(specs, values, py, n)
    ensures ReadsAs(ExpectedRecord(RowOf(specs, values), specs, py), key, specs, values, py, n)
  {
    KeyRead(specs, values, key, py);
    ExpectedColumns(values, specs, py, n);
    assert Join([key], '|') == key;
  }

  /** The record that the seed joins for a row converts to what is expected of the row. */
  lemma RecordReads(parts: seq<Part>, values: seq<SourceValue>, specs: seq<ColumnSpec>, book: Copybook, py: Python)
    requires LeadingColumns(specs, book) && TableSpecs(specs, book) && PartsStand(parts, values, specs)
    ensures forall p :: p in parts ==> Emitted(p).Some?
    ensures var record := SeedRecord(parts, book.recordLength);
            && |record| == book.recordLength
            && ConvertedRecord(record, specs, py) == ExpectedRecord(RowOf(specs, values), specs, py)
  {
    var row := RowOf(specs, values);
    RowStands(parts, values, specs);
    SeedRecordIsWritten(parts, row, specs, book, py);
    RecordWritable(row, specs, book, py);
    RecordRoundTrip(row, specs, book, py);
  }

  /**
   * So the job reads from it the key, the accepted columns up to the first that is rejected, and the rule that rejects
   * that one.
   */
  lemma TableRecordReads(parts: seq<Part>, values: seq<SourceValue>, specs: seq<ColumnSpec>, book: Copybook, key: string,
                         py: Python, n: nat)
    requires LeadingColumns(specs, book) && TableSpecs(specs, book) && PartsStand(parts, values, specs)
    requires KeyFirst(specs, values, key) && AcceptsUpTo(specs, values, py, n)
    ensures forall p :: p in parts ==> Emitted(p).Some?
    ensures var record := SeedRecord(parts, book.recordLength);
            |record| == book.recordLength && ReadsAs(ConvertedRecord(record, specs, py), key, specs, values, py, n)
  {
    RecordReads(parts, values, specs, book, py);
    ExpectedReads(values, specs, key, py, n);
  }

  lemma SameNames(names: set<string>, os: seq<Outcome>, specs: seq<ColumnSpec>, n: nat)
    requires n <= |os| == |specs| && NamesOf(names, os, n) && forall i :: 0 <= i < |os| ==> os[i].name == specs[i].name
    ensures forall name :: name in names <==> exists i :: 0 <= i < n && specs[i].name == name
  {
    forall name
      ensures name in names <==> exists i :: 0 <= i < n && specs[i].name == name
    {
      if name in names {
        var i :| 0 <= i < n && os[i].name == name;
        assert specs[i].name == name;
      }
      if i :| 0 <= i < n && specs[i].name == name { assert os[i].name == name; }
    }
  }
}
