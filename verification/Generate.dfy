/** The chunked, parallel writer of the seed files (migration/source/seed/generate.py). */
module Generate {
  import opened Arith
  import opened Bytes
  import opened Digits
  import opened Results
  import opened SeedRows

  // ---- chunks ----

  datatype Bounds = Bounds(lo: nat, hi: nat)

  /** `[(lo, min(lo + CHUNK, n)) for lo in range(from, n, CHUNK)]`. */
  function Chunks(from: nat, n: nat, chunk: nat): seq<Bounds>
    requires chunk > 0
    decreases n - from
  {
    if from >= n then [] else [Bounds(from, Min(from + chunk, n))] + Chunks(from + chunk, n, chunk)
  }

  /** Consecutive, non-empty intervals of at most `chunk` rows from `from` to `n`. */
  ghost predicate TilesRange(bs: seq<Bounds>, from: nat, n: nat, chunk: nat) {
    && (bs == [] ==> from >= n)
    && (bs != [] ==> bs[0].lo == from && bs[|bs| - 1].hi == n)
    && (forall i :: 0 <= i < |bs| ==> bs[i].lo < bs[i].hi <= bs[i].lo + chunk)
    && (forall i :: 0 < i < |bs| ==> Follows(bs, i))
  }

  ghost predicate Follows(bs: seq<Bounds>, i: nat)
    requires 0 < i < |bs|
  {
    bs[i].lo == bs[i - 1].hi
  }

  lemma {:induction false} ChunksTile(from: nat, n: nat, chunk: nat)
    requires chunk > 0
    ensures TilesRange(Chunks(from, n, chunk), from, n, chunk)
    decreases n - from
  {
    if from >= n {
    } else {
      ChunksTile(from + chunk, n, chunk);
      var bs, rest := Chunks(from, n, chunk), Chunks(from + chunk, n, chunk);
      forall i | 0 < i < |bs|
        ensures Follows(bs, i)
      {
        if i > 1 { assert Follows(rest, i - 1); }
      }
    }
  }

  // ---- the bounded map ----

  function MapSeq<T, R>(f: T -> R, items: seq<T>): (rs: seq<R>)
    ensures |rs| == |items|
  {
    seq(|items|, i requires 0 <= i < |items| => f(items[i]))
  }

  /**
   * The process pool, as the map uses it: items are submitted, results are taken in the order of submission, and never
   * more than `limit` submitted items wait for their result to be taken.
   */
  class Pool<T, R> {
    const work: T -> R
    const limit: nat
    var submitted: seq<T>
    var taken: nat

    ghost predicate Valid()
      reads this
    {
      taken <= |submitted| <= taken + limit
    }

    constructor (work: T -> R, limit: nat)
      ensures Valid() && this.work == work && this.limit == limit && submitted == [] && taken == 0
    {
      this.work, this.limit := work, limit;
      submitted, taken := [], 0;
    }

    method Submit(item: T)
      requires Valid() && |submitted| < taken + limit
      modifies this
      ensures Valid() && submitted == old(submitted) + [item] && taken == old(taken)
    {
      submitted := submitted + [item];
    }

    /** The result of the longest waiting item. */
    method Take() returns (r: R)
      requires Valid() && taken < |submitted|
      modifies this
      ensures Valid() && submitted == old(submitted) && taken == old(taken) + 1
      ensures r == work(submitted[old(taken)])
    {
      r := work(submitted[taken]);
      taken := taken + 1;
    }
  }

  /**
   * `_bounded_map`: every item is submitted once, in order, and its result leaves in that order; the pool never holds
   * more waiting items than the window (or one), which is what its `Submit` demands.
   */
  method BoundedMap<T, R>(pool: Pool<T, R>, items: seq<T>, window: nat) returns (results: seq<R>)
    requires pool.Valid() && pool.submitted == [] && pool.taken == 0 && pool.limit == Max(window, 1)
    modifies pool
    ensures pool.Valid() && pool.submitted == items && pool.taken == |items|
    ensures results == MapSeq(pool.work, items)
  {
    var pending: nat := 0;
    results := [];
    for k := 0 to |items|
      invariant pool.Valid() && pool.submitted == items[..k] && pool.taken + pending == k
      invariant pending < Max(window, 1)
      invariant results == MapSeq(pool.work, items[..pool.taken])
    {
      pool.Submit(items[k]);
      pending := pending + 1;
      if pending >= window {
        var r := pool.Take();
        MapSeqNext(pool.work, items, pool.taken - 1);
        results := results + [r];
        pending := pending - 1;
      }
    }
    while pending > 0
      invariant pool.Valid() && pool.submitted == items && pool.taken + pending == |items|
      invariant results == MapSeq(pool.work, items[..pool.taken])
      decreases pending
    {
      var r := pool.Take();
      MapSeqNext(pool.work, items, pool.taken - 1);
      results := results + [r];
      pending := pending - 1;
    }
    assert items[..|items|] == items;
  }

  lemma MapSeqNext<T, R>(f: T -> R, items: seq<T>, k: nat)
    requires k < |items|
    ensures MapSeq(f, items[..k + 1]) == MapSeq(f, items[..k]) + [f(items[k])]
  {
  }

  // ---- counters ----

  /** A counter reads zero where nothing was added. */
  type Counter = map<Code, int>

  function At(c: Counter, k: Code): int { if k in c then c[k] else 0 }

  function Add(c: Counter, k: Code, v: int): Counter { c[k := At(c, k) + v] }

  /** `c.update(d)` of two counters adds them. */
  function Update(c: Counter, d: Counter): (r: Counter)
    ensures forall k :: At(r, k) == At(c, k) + At(d, k)
  {
    map k | k in c.Keys + d.Keys :: At(c, k) + At(d, k)
  }

  // ---- one pass over rows ----

  /** What one row contributes: its bytes, and its class and charge when it is selected. */
  datatype Part = Part(bytes: seq<byte>, selected: bool, cls: Code, charge: int)

  /** The bytes and totals of rows `lo` to `hi` in one sequential pass. */
  ghost function PassBytes(row: nat -> Part, lo: nat, hi: nat): seq<byte>
    decreases hi - lo
  {
    if lo >= hi then [] else PassBytes(row, lo, hi - 1) + row(hi - 1).bytes
  }

  ghost function PassCount(row: nat -> Part, lo: nat, hi: nat, k: Code): nat
    decreases hi - lo
  {
    if lo >= hi then 0
    else PassCount(row, lo, hi - 1, k) + if row(hi - 1).selected && row(hi - 1).cls == k then 1 else 0
  }

  ghost function PassCharge(row: nat -> Part, lo: nat, hi: nat, k: Code): int
    decreases hi - lo
  {
    if lo >= hi then 0
    else PassCharge(row, lo, hi - 1, k) + if row(hi - 1).selected && row(hi - 1).cls == k then row(hi - 1).charge else 0
  }

  lemma {:induction false} PassSplits(row: nat -> Part, lo: nat, mid: nat, hi: nat, k: Code)
    requires lo <= mid <= hi
    ensures PassBytes(row, lo, hi) == PassBytes(row, lo, mid) + PassBytes(row, mid, hi)
    ensures PassCount(row, lo, hi, k) == PassCount(row, lo, mid, k) + PassCount(row, mid, hi, k)
    ensures PassCharge(row, lo, hi, k) == PassCharge(row, lo, mid, k) + PassCharge(row, mid, hi, k)
    decreases hi - mid
  {
    if mid == hi {
      assert PassBytes(row, mid, hi) == [];
    } else {
      PassSplits(row, lo, mid, hi - 1, k);
      var before, between := PassBytes(row, lo, mid), PassBytes(row, mid, hi - 1);
      assert before + (between + row(hi - 1).bytes) == (before + between) + row(hi - 1).bytes;
    }
  }

  datatype Stats = Stats(bytes: seq<byte>, counts: Counter, charges: Counter)

  ghost predicate IsPass(s: Stats, row: nat -> Part, lo: nat, hi: nat) {
    && s.bytes == PassBytes(row, lo, hi)
    && (forall k :: At(s.counts, k) == PassCount(row, lo, hi, k))
    && (forall k :: At(s.charges, k) == PassCharge(row, lo, hi, k))
  }

  function AddPart(s: Stats, part: Part): Stats {
    Stats(
      s.bytes + part.bytes,
      if part.selected then Add(s.counts, part.cls, 1) else s.counts,
      if part.selected then Add(s.charges, part.cls, part.charge) else s.charges)
  }

  /** What one worker returns for its interval. */
  function Worked(row: nat -> Part, lo: nat, hi: nat): (s: Stats)
    ensures IsPass(s, row, lo, hi)
    decreases hi - lo
  {
    if lo >= hi then Stats([], map[], map[]) else AddPart(Worked(row, lo, hi - 1), row(hi - 1))
  }

  /** `_docarch_chunk` and `_fileaud_chunk`: one worker's pass over its interval. */
  method Chunk(row: nat -> Part, b: Bounds) returns (s: Stats)
    ensures s == Worked(row, b.lo, b.hi)
  {
    var out: seq<byte> := [];
    var counts: Counter, charges: Counter := map[], map[];
    var g := b.lo;
    while g < b.hi
      invariant b.lo <= g <= Max(b.lo, b.hi)
      invariant Stats(out, counts, charges) == Worked(row, b.lo, g)
    {
      var part := row(g);
      if part.selected {
        counts := Add(counts, part.cls, 1);
        charges := Add(charges, part.cls, part.charge);
      }
      out := out + part.bytes;
      g := g + 1;
    }
    s := Stats(out, counts, charges);
  }

  // ---- the written file ----

  datatype File = File(bytes: seq<byte>, rows: nat)

  function Concat(blobs: seq<seq<byte>>): seq<byte> {
    if blobs == [] then [] else Concat(blobs[..|blobs| - 1]) + blobs[|blobs| - 1]
  }

  function RowsIn(blobs: seq<seq<byte>>, lrecl: nat): nat
    requires lrecl > 0
  {
    if blobs == [] then 0 else RowsIn(blobs[..|blobs| - 1], lrecl) + |blobs[|blobs| - 1]| / lrecl
  }

  /** `_write`: the blobs in order, refused unless they hold the expected number of rows. */
  method Write(blobs: seq<seq<byte>>, lrecl: nat, expectedRows: nat) returns (r: Result<File, ()>)
    requires lrecl > 0
    ensures r == if RowsIn(blobs, lrecl) == expectedRows then Ok(File(Concat(blobs), expectedRows)) else Err(())
  {
    var bytes: seq<byte> := [];
    var rows := 0;
    for k := 0 to |blobs|
      invariant bytes == Concat(blobs[..k]) && rows == RowsIn(blobs[..k], lrecl)
    {
      assert blobs[..k + 1][..k] == blobs[..k];
      bytes := bytes + blobs[k];
      rows := rows + |blobs[k]| / lrecl;
    }
    assert blobs[..|blobs|] == blobs;
    if rows != expectedRows { return Err(()); }
    return Ok(File(bytes, rows));
  }

  // ---- one table, written in parallel ----

  lemma {:induction false} PassLength(row: nat -> Part, lo: nat, hi: nat, lrecl: nat)
    requires lo <= hi && lrecl > 0
    requires forall g: nat :: g < hi ==> |row(g).bytes| == lrecl
    ensures |PassBytes(row, lo, hi)| == (hi - lo) * lrecl
    ensures |PassBytes(row, lo, hi)| / lrecl == hi - lo
    decreases hi - lo
  {
    if lo == hi {
    } else {
      PassLength(row, lo, hi - 1, lrecl);
      assert (hi - lo) * lrecl == (hi - 1 - lo) * lrecl + lrecl;
    }
    DivUnique(|PassBytes(row, lo, hi)|, lrecl, hi - lo, 0);
  }

  /** The rows written after the first `k` chunks. */
  function Done(bs: seq<Bounds>, k: nat): nat
    requires k <= |bs|
  {
    if k == 0 then 0 else bs[k - 1].hi
  }

  lemma NextChunk(bs: seq<Bounds>, k: nat, n: nat, chunk: nat)
    requires k < |bs| && TilesRange(bs, 0, n, chunk)
    ensures bs[k].lo == Done(bs, k) < bs[k].hi == Done(bs, k + 1)
    ensures Done(bs, |bs|) == n
  {
    if k > 0 { assert Follows(bs, k); }
  }

  lemma {:induction false} DoneBelow(bs: seq<Bounds>, k: nat, n: nat, chunk: nat)
    requires k <= |bs| && TilesRange(bs, 0, n, chunk)
    ensures Done(bs, k) <= n
    decreases |bs| - k
  {
    if k == |bs| {
    } else {
      DoneBelow(bs, k + 1, n, chunk);
      NextChunk(bs, k, n, chunk);
    }
  }

  lemma {:induction false} ConcatPush(blobs: seq<seq<byte>>, b: seq<byte>, lrecl: nat)
    requires lrecl > 0
    ensures Concat(blobs + [b]) == Concat(blobs) + b
    ensures RowsIn(blobs + [b], lrecl) == RowsIn(blobs, lrecl) + |b| / lrecl
  {
    assert (blobs + [b])[..|blobs|] == blobs;
  }

  /** The state of the merge: what was received so far is the sequential pass over the rows of those chunks. */
  ghost predicate Merged(blobs: seq<seq<byte>>, counts: Counter, charges: Counter, row: nat -> Part, hi: nat, lrecl: nat)
    requires lrecl > 0
  {
    IsPass(Stats(Concat(blobs), counts, charges), row, 0, hi) && RowsIn(blobs, lrecl) == hi
  }

  lemma MergeNext(blobs: seq<seq<byte>>, counts: Counter, charges: Counter, row: nat -> Part, mid: nat, hi: nat, lrecl: nat)
    requires lrecl > 0 && mid <= hi
    requires forall g: nat :: g < hi ==> |row(g).bytes| == lrecl
    requires Merged(blobs, counts, charges, row, mid, lrecl)
    ensures var s := Worked(row, mid, hi);
            Merged(blobs + [s.bytes], Update(counts, s.counts), Update(charges, s.charges), row, hi, lrecl)
  {
    var s := Worked(row, mid, hi);
    ConcatPush(blobs, s.bytes, lrecl);
    PassLength(row, mid, hi, lrecl);
    forall k
      ensures At(Update(counts, s.counts), k) == PassCount(row, 0, hi, k)
      ensures At(Update(charges, s.charges), k) == PassCharge(row, 0, hi, k)
      ensures Concat(blobs + [s.bytes]) == PassBytes(row, 0, hi)
    {
      PassSplits(row, 0, mid, hi, k);
    }
  }

  /**
   * The generated part of a table: for any chunk size and any window, the blobs that the workers return, in the
   * order the bounded map yields them, and the merged counters are those of one sequential pass.
   */
  method ParallelPass(row: nat -> Part, n: nat, chunk: nat, window: nat, lrecl: nat)
    returns (blobs: seq<seq<byte>>, counts: Counter, charges: Counter)
    requires chunk > 0 && lrecl > 0
    requires forall g: nat :: g < n ==> |row(g).bytes| == lrecl
    ensures Concat(blobs) == PassBytes(row, 0, n)
    ensures RowsIn(blobs, lrecl) == n
    ensures forall k :: At(counts, k) == PassCount(row, 0, n, k)
    ensures forall k :: At(charges, k) == PassCharge(row, 0, n, k)
  {
    var bs := Chunks(0, n, chunk);
    ChunksTile(0, n, chunk);
    var pool := new Pool((b: Bounds) => Worked(row, b.lo, b.hi), Max(window, 1));
    var results := BoundedMap(pool, bs, window);
    blobs, counts, charges := [], map[], map[];
    for k := 0 to |results|
      invariant Merged(blobs, counts, charges, row, Done(bs, k), lrecl)
    {
      NextChunk(bs, k, n, chunk);
      DoneBelow(bs, k + 1, n, chunk);
      MergeNext(blobs, counts, charges, row, bs[k].lo, bs[k].hi, lrecl);
      blobs := blobs + [results[k].bytes];
      counts := Update(counts, results[k].counts);
      charges := Update(charges, results[k].charges);
    }
    if |bs| > 0 { NextChunk(bs, 0, n, chunk); }
  }
}
