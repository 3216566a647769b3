/** Where the records of a written file lie (migration/source/seed/generate.py). */
module FileRecords {
  import opened Bytes
  import opened Cohorts
  import opened Generate
  import opened Results
  import opened SeedFiles
  import opened SeedRows

  /** The record at place `g` of a file of records of one length. */
  ghost predicate HoldsAt(bytes: seq<byte>, lrecl: nat, g: nat, record: seq<byte>) {
    0 <= g * lrecl <= (g + 1) * lrecl <= |bytes| && bytes[g * lrecl..(g + 1) * lrecl] == record
  }

  /** A file of records of one length holds the record of each row at its place. */
  lemma RecordAt(row: nat -> Part, n: nat, lrecl: nat, g: nat)
    requires FixedLength(row, n, lrecl) && g < n && lrecl > 0
    ensures HoldsAt(PassBytes(row, 0, n), lrecl, g, row(g).bytes)
  {
    var bytes := PassBytes(row, 0, n);
    var before, one := PassBytes(row, 0, g), PassBytes(row, 0, g + 1);
    PassLength(row, 0, g, lrecl);
    PassLength(row, 0, g + 1, lrecl);
    PassLength(row, 0, n, lrecl);
    PassSplits(row, 0, g + 1, n, FIN7);
    assert one == before + row(g).bytes;
    assert bytes == one + PassBytes(row, g + 1, n);
  }

  function RowsOf(z: Sizes): nat { z.docarchGenerated + PLANTED_ROWS }

  /** A file with a record for every row, at its place. */
  ghost predicate IsFileOf(z: Sizes, record: nat -> seq<byte>, lrecl: nat, file: Result<File, ()>) {
    && file.Ok? && file.value.rows == RowsOf(z)
    && forall g: nat :: g < RowsOf(z) ==> HoldsAt(file.value.bytes, lrecl, g, record(g))
  }

  lemma RowsHeld(row: nat -> Part, n: nat, lrecl: nat, file: Result<File, ()>)
    requires FixedLength(row, n, lrecl) && HoldsRows(file, row, n) && lrecl > 0
    ensures file.Ok? && file.value.rows == n
    ensures forall g: nat :: g < n ==> HoldsAt(file.value.bytes, lrecl, g, row(g).bytes)
  {
    forall g: nat | g < n
      ensures HoldsAt(file.value.bytes, lrecl, g, row(g).bytes)
    {
      RecordAt(row, n, lrecl, g);
    }
  }

  lemma RowBytes(z: Sizes, record: nat -> seq<byte>, g: nat)
    requires z.Valid() && g < RowsOf(z)
    ensures DocarchRows(z, record)(g).bytes == record(g)
  {
  }

  lemma FileHolds(z: Sizes, record: nat -> seq<byte>, rows: nat -> Part, n: nat, lrecl: nat, file: Result<File, ()>)
    requires z.Valid() && lrecl > 0 && forall g: nat :: g < RowsOf(z) ==> |record(g)| == lrecl
    requires rows == DocarchRows(z, record) && n == RowsOf(z) && HoldsRows(file, rows, n)
    ensures IsFileOf(z, record, lrecl, file)
  {
    DocarchLengths(z, record, rows, lrecl);
    RowsHeld(rows, n, lrecl, file);
    forall g: nat | g < n
      ensures rows(g).bytes == record(g)
    {
      RowBytes(z, record, g);
    }
  }

  /** The archive file: for every chunk size and window it holds every record at its place, and its total passes. */
  method GenerateArchive(z: Sizes, record: nat -> seq<byte>, lrecl: nat, chunk: nat, window: nat)
    returns (file: Result<File, ()>, cls: Counter, chg: Counter)
    requires z.Valid() && chunk > 0 && lrecl > 0 && forall g: nat :: g < RowsOf(z) ==> |record(g)| == lrecl
    ensures IsFileOf(z, record, lrecl, file) && Sum(cls) == z.docarchS + 37
  {
    ghost var rows, n := DocarchRows(z, record), z.docarchGenerated + PLANTED_ROWS;
    file, cls, chg := GenerateDocarch(z, record, chunk, window, lrecl);
    assert HoldsRows(file, rows, n);
    FileHolds(z, record, rows, n, lrecl, file);
  }
}
