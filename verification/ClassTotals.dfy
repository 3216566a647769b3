/**
 * The totals by retention class of the archive seed file, against the classes that the manifest's value map loads
 * (migration/source/seed/generate.py, migration/manifest.yaml).
 */
module ClassTotals {
  import ArchiveRecords
  import opened Bytes
  import opened Codecs
  import opened Cohorts
  import opened Convert
  import opened Generate
  import Mixer
  import opened Results
  import opened Runs
  import opened SeedFiles
  import opened SeedRows

  /** The class in the source record of row `g`, before any consolidation. */
  function SourceClass(z: Sizes, g: nat): Code
    requires z.Valid() && g < z.docarchGenerated + 42
  {
    if g < z.docarchGenerated then DocarchGenerated(z, g).retentionClass else PlantedRow(g - z.docarchGenerated).cls
  }

  /** The class column of the manifest loads the text of class `c` as that of class `k`. */
  ghost predicate LoadsAs(spec: ColumnSpec, c: Code, k: Code) {
    ConvertText(CodeText(c), spec) == Ok((VText(CodeText(k)), VText(CodeText(c))))
  }

  /** The spec of the class column. */
  ghost predicate IsClassColumn(spec: ColumnSpec) {
    exists ascii: Codec, cp037: Codec :: spec == ArchiveRecords.SpecOf(3, ascii, cp037)
  }

  lemma TextLoads(spec: ColumnSpec, text: string, value: string)
    requires IsClassColumn(spec) && |text| == 4 == |value| && ArchiveRecords.Printable(text) && text[3] != ' '
    requires value == if text == "F07R" then "LGL7" else if text == "L07R" then "FIN7"
                      else if text == "H07R" then "HRS7" else text
    ensures ConvertText(text, spec) == Ok((VText(value), VText(text)))
  {
    ArchiveRecords.PrintableHasNoControls(text, 0);
    assert Rstrip(text) == text;
    assert Ljust(value, 4) == value;
  }

  lemma CodeLoads(spec: ColumnSpec, c: Code, k: Code)
    requires IsClassColumn(spec) && (InClosed7y(c) || c == H07R)
    requires k == if c == F07R then LGL7 else if c == L07R then FIN7 else if c == H07R then HRS7 else c
    ensures LoadsAs(spec, c, k)
  {
    ArchiveRecords.CodeTextPrints(c);
    TextLoads(spec, CodeText(c), CodeText(k));
  }

  lemma CodesApart(c: Code, k: Code)
    requires InSetActive(c) && CodeText(k) == CodeText(c)
    ensures k == c
  {
  }

  lemma LoadsOnce(spec: ColumnSpec, c: Code, k: Code, l: Code)
    requires LoadsAs(spec, c, k) && LoadsAs(spec, c, l)
    ensures CodeText(k) == CodeText(l)
  {
  }

  /** The classes of the selection set load as themselves, but the two retired ones as each other's successor. */
  lemma ClassLoads(spec: ColumnSpec, c: Code, k: Code)
    requires IsClassColumn(spec) && InClosed7y(c)
    ensures LoadsAs(spec, c, k) <==> k == if c == F07R then LGL7 else if c == L07R then FIN7 else c
  {
    var to := if c == F07R then LGL7 else if c == L07R then FIN7 else c;
    CodeLoads(spec, c, to);
    if LoadsAs(spec, c, k) {
      LoadsOnce(spec, c, to, k);
      CodesApart(to, k);
    }
  }

  /** Row `g` as the value map loads it: everything is kept but the class. */
  ghost predicate LoadedRow(z: Sizes, spec: ColumnSpec, rows: nat -> Part, loaded: nat -> Part, g: nat)
    requires z.Valid() && g < z.docarchGenerated + 42
  {
    && loaded(g).selected == rows(g).selected && loaded(g).charge == rows(g).charge
    && LoadsAs(spec, SourceClass(z, g), loaded(g).cls)
  }

  ghost predicate Loaded(z: Sizes, spec: ColumnSpec, rows: nat -> Part, loaded: nat -> Part)
    requires z.Valid()
  {
    forall g: nat :: g < z.docarchGenerated + 42 ==> LoadedRow(z, spec, rows, loaded, g)
  }

  /** The retired planted rows load as each other's successor. */
  lemma PlantedLoads(spec: ColumnSpec, i: nat, k: Code)
    requires IsClassColumn(spec) && i < 42 && LoadsAs(spec, PlantedRow(i).cls, k)
    ensures k == ClassAt(i, LGL7, FIN7)
  {
    var c := PlantedRow(i).cls;
    PlantedMoment(i);
    ClassLoads(spec, c, k);
  }

  lemma SourceOfPlanted(z: Sizes, i: nat)
    requires z.Valid() && i < 42
    ensures SourceClass(z, z.docarchGenerated + i) == PlantedRow(i).cls
  {
  }

  lemma OnlyClassDiffers(r: Part, s: Part, i: nat, draw: int)
    requires PlantedAs(r, i, FIN7, LGL7, draw) && r.selected == s.selected && r.charge == s.charge
    requires s.cls == ClassAt(i, LGL7, FIN7)
    ensures PlantedAs(s, i, LGL7, FIN7, draw)
  {
  }

  lemma LoadedPlanted(z: Sizes, spec: ColumnSpec, rows: nat -> Part, loaded: nat -> Part, draws: nat -> int, i: nat)
    requires z.Valid() && IsClassColumn(spec) && Loaded(z, spec, rows, loaded) && i < 42
    requires PlantedRowAs(rows, z.docarchGenerated, i, FIN7, LGL7, draws)
    ensures PlantedRowAs(loaded, z.docarchGenerated, i, LGL7, FIN7, draws)
  {
    var g := z.docarchGenerated + i;
    var r, s := rows(g), loaded(g);
    SourceOfPlanted(z, i);
    assert LoadedRow(z, spec, rows, loaded, g);
    PlantedLoads(spec, i, s.cls);
    OnlyClassDiffers(r, s, i, draws(i));
  }

  lemma SameAfterLoading(spec: ColumnSpec, r: Part, s: Part, t: Part)
    requires IsClassColumn(spec) && SameTotals(r, t) && (t.selected ==> InSetActive(t.cls))
    requires s.selected == r.selected && s.charge == r.charge && LoadsAs(spec, t.cls, s.cls)
    ensures s.selected == t.selected && (s.selected ==> SameTotals(s, t))
  {
    if t.selected { ClassLoads(spec, t.cls, s.cls); }
  }

  lemma LoadedGenerated(z: Sizes, spec: ColumnSpec, rows: nat -> Part, loaded: nat -> Part, base: nat -> Part, g: nat)
    requires z.Valid() && IsClassColumn(spec) && Loaded(z, spec, rows, loaded) && g < z.docarchGenerated
    requires SameTotals(rows(g), base(g)) && base(g).cls == SourceClass(z, g)
    requires base(g).selected ==> InSetActive(base(g).cls)
    ensures SameAt(loaded, base, g)
  {
    assert LoadedRow(z, spec, rows, loaded, g);
    SameAfterLoading(spec, rows(g), loaded(g), base(g));
  }

  lemma GeneratedBase(z: Sizes, base: nat -> Part, g: nat)
    requires z.Valid() && base == GeneratedRows(z)
    ensures g < z.docarchGenerated ==> base(g).cls == SourceClass(z, g)
    ensures base(g).selected ==> InSetActive(base(g).cls)
  {
    BaseRanges(Mixer.DOCARCH, g, DocarchKey(g), z.DocarchCohort(g));
  }

  lemma LoadedBelow(z: Sizes, spec: ColumnSpec, rows: nat -> Part, loaded: nat -> Part, base: nat -> Part)
    requires z.Valid() && IsClassColumn(spec) && Loaded(z, spec, rows, loaded) && base == GeneratedRows(z)
    requires forall g: nat :: g < z.docarchGenerated ==> SameTotals(rows(g), base(g))
    ensures SameBelow(loaded, base, z.docarchGenerated)
  {
    forall g: nat | g < z.docarchGenerated
      ensures SameAt(loaded, base, g)
    {
      GeneratedBase(z, base, g);
      LoadedGenerated(z, spec, rows, loaded, base, g);
    }
  }

  lemma LoadedRuns(z: Sizes, spec: ColumnSpec, rows: nat -> Part, loaded: nat -> Part, draws: nat -> int)
    requires z.Valid() && IsClassColumn(spec) && Loaded(z, spec, rows, loaded)
    requires Planted(rows, z.docarchGenerated, FIN7, LGL7, draws)
    ensures Planted(loaded, z.docarchGenerated, LGL7, FIN7, draws)
  {
    forall i: nat | i < 42
      ensures PlantedRowAs(loaded, z.docarchGenerated, i, LGL7, FIN7, draws)
    {
      assert PlantedRowAs(rows, z.docarchGenerated, i, FIN7, LGL7, draws);
      LoadedPlanted(z, spec, rows, loaded, draws, i);
    }
  }

  /** The totals differ by one unit of 10^-8 in the two classes, one way and the other. */
  ghost predicate OffByOne(cls: Counter, chg: Counter, cls2: Counter, chg2: Counter) {
    && (forall k :: At(cls2, k) == At(cls, k))
    && (forall k :: k != FIN7 && k != LGL7 ==> At(chg2, k) == At(chg, k))
    && At(chg2, FIN7) == At(chg, FIN7) + 1 && At(chg2, LGL7) == At(chg, LGL7) - 1
  }

  lemma TotalsSwapped(base: nat -> Part, n: nat, draws: nat -> int, cls: Counter, chg: Counter, cls2: Counter, chg2: Counter)
    requires AllTotals(base, n, draws, FIN7, LGL7, cls, chg) && AllTotals(base, n, draws, LGL7, FIN7, cls2, chg2)
    ensures OffByOne(cls, chg, cls2, chg2)
  {
    forall k
      ensures At(cls2, k) == At(cls, k)
      ensures At(chg2, k) == At(chg, k) + If(k == FIN7, 1) - If(k == LGL7, 1)
    {
      assert TotalsOf(base, n, draws, FIN7, LGL7, k, At(cls, k), At(chg, k));
      assert TotalsOf(base, n, draws, LGL7, FIN7, k, At(cls2, k), At(chg2, k));
    }
  }

  lemma SameGrandTotal(cls: Counter, chg: Counter, cls2: Counter, chg2: Counter)
    requires OffByOne(cls, chg, cls2, chg2)
    ensures Sum(cls2) == Sum(cls) && Sum(chg2) == Sum(chg)
  {
    SameReadings(cls, cls2);
    var one := Add(chg, FIN7, 1);
    var both := Add(one, LGL7, -1);
    SumAdd(chg, FIN7, 1);
    SumAdd(one, LGL7, -1);
    AddReads(chg, FIN7, 1);
    AddReads(one, LGL7, -1);
    SameReadings(both, chg2);
  }

  lemma LoadedTotals(z: Sizes, spec: ColumnSpec, record: nat -> seq<byte>, rows: nat -> Part, loaded: nat -> Part,
                     base: nat -> Part, draws: nat -> int)
    requires z.Valid() && IsClassColumn(spec) && rows == DocarchRows(z, record) && Loaded(z, spec, rows, loaded)
    requires base == GeneratedRows(z) && draws == PlantedDraws()
    ensures Planted(loaded, z.docarchGenerated, LGL7, FIN7, draws) && SameBelow(loaded, base, z.docarchGenerated)
  {
    FileOfRuns(z, record, rows, draws);
    LoadedRuns(z, spec, rows, loaded, draws);
    FileOfBase(z, record, rows, base);
    LoadedBelow(z, spec, rows, loaded, base);
  }

  lemma LoadedCounters(z: Sizes, spec: ColumnSpec, record: nat -> seq<byte>, rows: nat -> Part, loaded: nat -> Part,
                       base: nat -> Part, draws: nat -> int, cls2: Counter, chg2: Counter)
    requires z.Valid() && IsClassColumn(spec) && rows == DocarchRows(z, record) && Loaded(z, spec, rows, loaded)
    requires base == GeneratedRows(z) && draws == PlantedDraws()
    requires CountsRows(cls2, loaded, z.docarchGenerated + 42) && ChargesRows(chg2, loaded, z.docarchGenerated + 42)
    ensures AllTotals(base, z.docarchGenerated, draws, LGL7, FIN7, cls2, chg2)
  {
    LoadedTotals(z, spec, record, rows, loaded, base, draws);
    CounterTotals(loaded, z.docarchGenerated, base, draws, LGL7, FIN7, cls2, chg2);
  }

  lemma TotalsCompared(base: nat -> Part, n: nat, draws: nat -> int, cls: Counter, chg: Counter, cls2: Counter,
                       chg2: Counter)
    requires AllTotals(base, n, draws, FIN7, LGL7, cls, chg) && AllTotals(base, n, draws, LGL7, FIN7, cls2, chg2)
    ensures OffByOne(cls, chg, cls2, chg2) && Sum(cls2) == Sum(cls) && Sum(chg2) == Sum(chg)
  {
    TotalsSwapped(base, n, draws, cls, chg, cls2, chg2);
    SameGrandTotal(cls, chg, cls2, chg2);
  }

  lemma LoadedAgainst(z: Sizes, spec: ColumnSpec, record: nat -> seq<byte>, rows: nat -> Part, loaded: nat -> Part,
                      base: nat -> Part, draws: nat -> int, cls: Counter, chg: Counter, cls2: Counter, chg2: Counter)
    requires z.Valid() && IsClassColumn(spec) && rows == DocarchRows(z, record) && Loaded(z, spec, rows, loaded)
    requires base == GeneratedRows(z) && draws == PlantedDraws()
    requires AllTotals(base, z.docarchGenerated, draws, FIN7, LGL7, cls, chg)
    requires CountsRows(cls2, loaded, z.docarchGenerated + 42) && ChargesRows(chg2, loaded, z.docarchGenerated + 42)
    ensures OffByOne(cls, chg, cls2, chg2) && Sum(cls2) == Sum(cls) && Sum(chg2) == Sum(chg)
  {
    LoadedCounters(z, spec, record, rows, loaded, base, draws, cls2, chg2);
    TotalsCompared(base, z.docarchGenerated, draws, cls, chg, cls2, chg2);
  }

  /**
   * The planted consolidation failure: against the totals of the system of record, the rows that the value map loads
   * have the same count in every class and the same grand total, but the charges of FIN7 and LGL7 are one unit of
   * 10^-8 too high and one too low.
   */
  lemma ValueMapTransposed(z: Sizes, spec: ColumnSpec, record: nat -> seq<byte>, rows: nat -> Part,
                           loaded: nat -> Part, cls: Counter, chg: Counter, cls2: Counter, chg2: Counter)
    requires z.Valid() && IsClassColumn(spec) && rows == DocarchRows(z, record) && Loaded(z, spec, rows, loaded)
    requires ClassTotals(z, cls, chg)
    requires CountsRows(cls2, loaded, z.docarchGenerated + 42) && ChargesRows(chg2, loaded, z.docarchGenerated + 42)
    ensures OffByOne(cls, chg, cls2, chg2) && Sum(cls2) == Sum(cls) && Sum(chg2) == Sum(chg)
  {
    LoadedAgainst(z, spec, record, rows, loaded, GeneratedRows(z), PlantedDraws(), cls, chg, cls2, chg2);
  }
}
