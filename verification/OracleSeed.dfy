/** The restartable Oracle seed and its nine-digit timestamps (migration/source/seed/oracle.py). */
module OracleSeed {
  import opened Calendar
  import opened Digits
  import opened Results
  import SeedFiles
  import SeedRows

  // ---- nine fraction digits ----

  const TAIL_STEP := 1000

  /** `ts9`: what a TIMESTAMP(9) column can hold of a TIMESTAMP(12) text. */
  function Ts9(text: string): Option<string> { if |text| == 32 then Some(text[..29]) else None }

  /** `ts9_text`: the same, as it reads back. */
  function Ts9Text(text: string): Option<string> {
    match Ts9(text)
    case None => None
    case Some(t) => Some(t + "000")
  }

  const HEAD := 9
  const TAIL := 3

  lemma TailWidth()
    ensures Pow10(TAIL) == TAIL_STEP && Fixed(0, TAIL) == "000"
  {
    assert Pow10(1) == 10;
    assert Fixed(0, 1) == "0";
    assert Fixed(0, 2) == "00";
  }

  lemma DigitsSplit(n: nat, hi: nat, lo: nat, a: nat, b: nat)
    requires n == hi * Pow10(b) + lo && lo < Pow10(b) && n < Pow10(a + b) && a + b >= 1
    ensures Padded(n, a + b)[..a] == Fixed(hi, a) && Padded(n, a + b)[a..] == Fixed(lo, b)
  {
    FieldWidth(n, a + b);
    FixedAppend(hi, lo, a, b);
  }

  lemma FractionSplits(frac: nat, hi: nat, lo: nat)
    requires frac < FRAC && frac == hi * TAIL_STEP + lo && lo < TAIL_STEP
    ensures |Padded(frac, 12)| == 12
    ensures Padded(frac, 12)[..HEAD] == Fixed(hi, HEAD) && Padded(frac, 12)[HEAD..] == Fixed(lo, TAIL)
  {
    TailWidth();
    Widths();
    DigitsSplit(frac, hi, lo, HEAD, TAIL);
  }

  lemma FractionHead(frac: nat, kept: nat)
    requires frac < FRAC && kept == frac / TAIL_STEP * TAIL_STEP
    ensures kept < FRAC && |Padded(frac, 12)| == |Padded(kept, 12)| == 12
    ensures Padded(frac, 12)[..HEAD] == Padded(kept, 12)[..HEAD] && Padded(kept, 12)[HEAD..] == "000"
  {
    FractionSplits(frac, frac / TAIL_STEP, frac % TAIL_STEP);
    FractionSplits(kept, frac / TAIL_STEP, 0);
    TailWidth();
  }

  /** Two texts that agree up to position `n`, with what the first reads from there on. */
  predicate SameHead(s: string, t: string, n: nat, x: string, y: string) {
    && n <= |s| == |t|
    && s[..n] == t[..n] && s[n..] == x && t[n..] == y
  }

  lemma FieldHead(field: string, sep: string, s: string, t: string, n: nat, x: string, y: string)
    requires SameHead(s, t, n, x, y)
    ensures SameHead(field + (sep + s), field + (sep + t), |field| + |sep| + n, x, y)
  {
    var u, v, k := field + (sep + s), field + (sep + t), |field| + |sep|;
    assert u == (field + sep) + s && v == (field + sep) + t;
    assert u[..k + n] == (field + sep) + s[..n] && v[..k + n] == (field + sep) + t[..n];
    assert u[k + n..] == s[n..] && v[k + n..] == t[n..];
  }

  lemma MomentWidths(t: Moment)
    requires ValidMoment(t)
    ensures |Padded(t.date.year, 4)| == 4 && |Padded(t.date.month, 2)| == 2 && |Padded(t.date.day, 2)| == 2
    ensures |Padded(t.hour, 2)| == 2 && |Padded(t.minute, 2)| == 2 && |Padded(t.second, 2)| == 2
  {
    Widths();
    FieldWidth(t.date.year, 4);
    FieldWidth(t.date.month, 2);
    FieldWidth(t.date.day, 2);
    FieldWidth(t.hour, 2);
    FieldWidth(t.minute, 2);
    FieldWidth(t.second, 2);
  }

  lemma MomentTextHead(t: Moment, frac: nat, other: nat)
    requires ValidMoment(t) && |Padded(frac, 12)| == |Padded(other, 12)|
    ensures SameHead(MomentText(t, frac), MomentText(t, other), 20, Padded(frac, 12), Padded(other, 12))
  {
    MomentWidths(t);
    var x, y := Padded(frac, 12), Padded(other, 12);
    var s, u := x, y;
    FieldHead(Padded(t.second, 2), ".", s, u, 0, x, y);
    s, u := Padded(t.second, 2) + ("." + s), Padded(t.second, 2) + ("." + u);
    FieldHead(Padded(t.minute, 2), ".", s, u, 3, x, y);
    s, u := Padded(t.minute, 2) + ("." + s), Padded(t.minute, 2) + ("." + u);
    FieldHead(Padded(t.hour, 2), ".", s, u, 6, x, y);
    s, u := Padded(t.hour, 2) + ("." + s), Padded(t.hour, 2) + ("." + u);
    FieldHead(Padded(t.date.day, 2), "-", s, u, 9, x, y);
    s, u := Padded(t.date.day, 2) + ("-" + s), Padded(t.date.day, 2) + ("-" + u);
    FieldHead(Padded(t.date.month, 2), "-", s, u, 12, x, y);
    s, u := Padded(t.date.month, 2) + ("-" + s), Padded(t.date.month, 2) + ("-" + u);
    FieldHead(Padded(t.date.year, 4), "-", s, u, 15, x, y);
  }

  lemma KeepsHead(a: string, b: string, x: string, y: string)
    requires SameHead(a, b, 20, x, y) && |x| == |y| == 12 && x[..HEAD] == y[..HEAD] && y[HEAD..] == "000"
    ensures Ts9Text(a) == Some(b)
  {
    assert a == a[..20] + x && b == b[..20] + y;
    assert a[..29] == a[..20] + x[..HEAD];
    assert b == b[..20] + y[..HEAD] + y[HEAD..];
  }

  lemma SameMomentText(t: Moment, frac: nat, kept: nat)
    requires ValidMoment(t) && frac < FRAC && kept == frac / TAIL_STEP * TAIL_STEP
    ensures Ts9Text(MomentText(t, frac)) == Some(MomentText(t, kept))
  {
    FractionHead(frac, kept);
    MomentTextHead(t, frac, kept);
    KeepsHead(MomentText(t, frac), MomentText(t, kept), Padded(frac, 12), Padded(kept, 12));
  }

  /** `frac // 1000 * 1000`. */
  function RoundedDown(frac: nat): nat { frac / TAIL_STEP * TAIL_STEP }

  /**
   * The two ways the source drops the last three fraction digits agree: cutting the text of a timestamp is
   * writing the timestamp with its fraction rounded down to a multiple of a thousand.
   */
  lemma DropsLastThree(secs: int, frac: nat)
    requires InRange(secs) && frac < FRAC
    ensures Ts9Text(Ts12(secs, frac).value) == Ts12(secs, RoundedDown(frac))
  {
    TimeGmOfGmTime(secs);
    SameMomentText(GmTime(secs).value, frac, RoundedDown(frac));
  }

  // ---- batched inserts ----

  datatype Row<V> = Row(key: string, value: V)

  /** An insert that skips rows whose key is already present. */
  function Offer<V>(table: map<string, V>, rows: seq<Row<V>>): map<string, V>
    decreases rows
  {
    if rows == [] then table
    else Offer(if rows[0].key in table then table else table[rows[0].key := rows[0].value], rows[1..])
  }

  lemma {:induction false} OfferAppend<V>(table: map<string, V>, a: seq<Row<V>>, b: seq<Row<V>>)
    ensures Offer(Offer(table, a), b) == Offer(table, a + b)
    decreases a
  {
    if a == [] {
      assert a + b == b;
    } else {
      assert (a + b)[1..] == a[1..] + b;
      OfferAppend(if a[0].key in table then table else table[a[0].key := a[0].value], a[1..], b);
    }
  }

  ghost predicate HasKey<V>(rows: seq<Row<V>>, k: string) { exists i :: 0 <= i < |rows| && rows[i].key == k }

  /** Exactly the keys of the table and of the rows; what was in the table stays as it was. */
  lemma {:induction false} OfferReads<V>(table: map<string, V>, rows: seq<Row<V>>)
    ensures forall k :: k in Offer(table, rows) <==> k in table || HasKey(rows, k)
    ensures forall k :: k in table ==> Offer(table, rows)[k] == table[k]
    ensures forall k :: k in Offer(table, rows) && k !in table ==> Row(k, Offer(table, rows)[k]) in rows
    decreases rows
  {
    if rows == [] {
    } else {
      var next := if rows[0].key in table then table else table[rows[0].key := rows[0].value];
      OfferReads(next, rows[1..]);
      forall k | HasKey(rows, k)
        ensures rows[0].key == k || HasKey(rows[1..], k)
      {
        var i :| 0 <= i < |rows| && rows[i].key == k;
        if i > 0 { assert rows[1..][i - 1].key == k; }
      }
      forall k | HasKey(rows[1..], k)
        ensures HasKey(rows, k)
      {
        var i :| 0 <= i < |rows[1..]| && rows[1..][i].key == k;
        assert rows[i + 1].key == k;
      }
    }
  }

  /** How many rows one commit takes: the buffer is flushed when it holds `batch` rows, or at the end. */
  function Take(batch: nat, n: nat): nat { Min(Max(batch, 1), n) }

  /** The committed batches. */
  function Batches<V>(rows: seq<Row<V>>, batch: nat): seq<seq<Row<V>>>
    decreases |rows|
  {
    if rows == [] then []
    else
      var n := Take(batch, |rows|);
      [rows[..n]] + Batches(rows[n..], batch)
  }

  /** One table, as every session sees it: the committed rows, and the batches committed so far. */
  class Table<V> {
    var rows: map<string, V>
    ghost var commits: seq<seq<Row<V>>>

    constructor ()
      ensures rows == map[] && commits == []
    {
      rows, commits := map[], [];
    }

    /** `executemany` and the `commit` after it. */
    method Commit(buf: seq<Row<V>>)
      modifies this
      ensures rows == Offer(old(rows), buf) && commits == old(commits) + [buf]
    {
      for i := 0 to |buf|
        invariant Offer(rows, buf[i..]) == Offer(old(rows), buf) && commits == old(commits)
      {
        if buf[i].key !in rows { rows := rows[buf[i].key := buf[i].value]; }
        assert buf[i..][1..] == buf[i + 1..];
      }
      commits := commits + [buf];
    }

    /** `insert_rows`: every row is offered exactly once, in batches, one commit for each. */
    method InsertRows(params: seq<Row<V>>, batch: nat) returns (offered: nat)
      modifies this
      ensures rows == Offer(old(rows), params)
      ensures commits == old(commits) + Batches(params, batch)
      ensures offered == |params|
    {
      offered := 0;
      var buf: seq<Row<V>> := [];
      for i := 0 to |params|
        invariant Committed(old(rows), old(commits), params, offered, batch)
        invariant offered <= i && buf == params[offered..i] && |buf| < Max(batch, 1)
      {
        buf := buf + [params[i]];
        if |buf| >= batch {
          Flush(old(rows), old(commits), params, offered, i + 1, buf, batch);
          offered := offered + |buf|;
          buf := [];
        }
      }
      if buf != [] {
        Flush(old(rows), old(commits), params, offered, |params|, buf, batch);
        offered := offered + |buf|;
      }
      assert params[..offered] == params;
    }

    /** The first `offered` rows are committed, in the batches of the whole list. */
    ghost predicate Committed(rows0: map<string, V>, commits0: seq<seq<Row<V>>>, params: seq<Row<V>>,
                              offered: nat, batch: nat)
      reads this
    {
      && offered <= |params|
      && rows == Offer(rows0, params[..offered])
      && commits + Batches(params[offered..], batch) == commits0 + Batches(params, batch)
    }

    /** Commit a full buffer, or the last one. */
    method Flush(ghost rows0: map<string, V>, ghost commits0: seq<seq<Row<V>>>, ghost params: seq<Row<V>>,
                 ghost from: nat, ghost to: nat, buf: seq<Row<V>>, ghost batch: nat)
      requires Committed(rows0, commits0, params, from, batch)
      requires from < to <= |params| && to - from == Take(batch, |params| - from) && buf == params[from..to]
      modifies this
      ensures Committed(rows0, commits0, params, to, batch)
      ensures commits == old(commits) + [buf]
    {
      NextBatch(rows0, params, from, to, buf, batch);
      Commit(buf);
      assert commits + Batches(params[to..], batch) == old(commits) + ([buf] + Batches(params[to..], batch));
    }
  }

  lemma NextBatch<V>(table: map<string, V>, params: seq<Row<V>>, from: nat, to: nat, buf: seq<Row<V>>, batch: nat)
    requires from < to <= |params| && to - from == Take(batch, |params| - from) && buf == params[from..to]
    ensures Offer(Offer(table, params[..from]), buf) == Offer(table, params[..to])
    ensures Batches(params[from..], batch) == [buf] + Batches(params[to..], batch)
  {
    OfferAppend(table, params[..from], buf);
    assert params[..from] + buf == params[..to];
    var rest := params[from..];
    assert rest[..to - from] == buf && rest[to - from..] == params[to..];
  }

  // ---- the seed of one table ----

  /** The rows of one table: the chunks handed to the workers, then the rows the parent process inserts itself. */
  datatype Job<V> = Job(chunks: seq<seq<Row<V>>>, planted: seq<Row<V>>, batch: nat)

  function Flatten<V>(chunks: seq<seq<Row<V>>>): seq<Row<V>> {
    if chunks == [] then [] else chunks[0] + Flatten(chunks[1..])
  }

  function AllRows<V>(job: Job<V>): seq<Row<V>> { Flatten(job.chunks) + job.planted }

  ghost predicate DistinctKeys<V>(rows: seq<Row<V>>) {
    forall i, j :: 0 <= i < j < |rows| ==> rows[i].key != rows[j].key
  }

  /** The table that the seed is meant to leave. */
  function Expected<V>(rows: seq<Row<V>>): map<string, V> { Offer(map[], rows) }

  lemma KeyDecides<V>(rows: seq<Row<V>>, r: Row<V>, s: Row<V>)
    requires DistinctKeys(rows) && r in rows && s in rows && r.key == s.key
    ensures r == s
  {
    var i :| 0 <= i < |rows| && rows[i] == r;
    var j :| 0 <= j < |rows| && rows[j] == s;
    assert i == j;
  }

  lemma ExpectedRows<V>(rows: seq<Row<V>>)
    requires DistinctKeys(rows)
    ensures |Expected(rows)| == |rows|
    ensures forall r :: r in rows ==> r.key in Expected(rows) && Expected(rows)[r.key] == r.value
    ensures forall k :: k in Expected(rows) ==> Row(k, Expected(rows)[k]) in rows
  {
    OfferReads(map[], rows);
    ExpectedSize(rows);
    forall r | r in rows
      ensures r.key in Expected(rows) && Expected(rows)[r.key] == r.value
    {
      var i :| 0 <= i < |rows| && rows[i] == r;
      assert r.key in Expected(rows);
      KeyDecides(rows, r, Row(r.key, Expected(rows)[r.key]));
    }
  }

  lemma {:induction false} ExpectedSize<V>(rows: seq<Row<V>>)
    requires DistinctKeys(rows)
    ensures |Expected(rows)| == |rows|
  {
    if rows == [] {
    } else {
      var front, last := rows[..|rows| - 1], rows[|rows| - 1];
      ExpectedSize(front);
      OfferReads(map[], front);
      OfferAppend(map[], front, [last]);
      assert rows == front + [last];
      assert Expected(rows) == Expected(front)[last.key := last.value];
    }
  }

  datatype Phase<V> = Idle | Copying(todo: seq<seq<Row<V>>>) | Planting(rest: seq<Row<V>>) | Finished(complete: bool)

  datatype State<V> = State(table: map<string, V>, phase: Phase<V>)

  /** The count that decides whether the table is skipped, and whether the run succeeded. */
  function Count<V>(table: map<string, V>): nat { |table| }

  datatype Event<V> =
    | Begin                            // `seed` reads the count and starts, or skips the table
    | WorkerCommits(chunk: nat)        // some worker commits the next batch of its chunk
    | WorkersDone                      // `pool.map` is exhausted
    | ParentCommits                    // the parent process commits a batch of planted rows
    | FinalCheck                       // the count after all inserts
    | Crash                            // the process dies between two commits
    | Stray(batch: seq<Row<V>>)        // a worker that outlived an earlier run commits a batch

  /** The steps of any number of runs of `seed` on one table. */
  ghost predicate Step<V>(job: Job<V>, e: Event<V>, s: State<V>, t: State<V>) {
    match e
    case Begin =>
      && !s.phase.Copying? && !s.phase.Planting?
      && t.table == s.table
      && t.phase == (if Count(s.table) < |AllRows(job)| then Copying(job.chunks)
                     else Finished(Count(s.table) == |AllRows(job)|))
    case WorkerCommits(i) =>
      && s.phase.Copying? && i < |s.phase.todo| && s.phase.todo[i] != []
      && (var rows := s.phase.todo[i];
          var n := Take(job.batch, |rows|);
          t == State(Offer(s.table, rows[..n]), Copying(s.phase.todo[i := rows[n..]])))
    case WorkersDone =>
      && s.phase.Copying? && (forall c :: c in s.phase.todo ==> c == [])
      && t == State(s.table, Planting(job.planted))
    case ParentCommits =>
      && s.phase.Planting? && s.phase.rest != []
      && (var rows := s.phase.rest;
          var n := Take(job.batch, |rows|);
          t == State(Offer(s.table, rows[..n]), Planting(rows[n..])))
    case FinalCheck =>
      && s.phase.Planting? && s.phase.rest == []
      && t == State(s.table, Finished(Count(s.table) == |AllRows(job)|))
    case Crash => t == State(s.table, Idle)
    case Stray(batch) =>
      && (forall r :: r in batch ==> r in AllRows(job))
      && t == State(Offer(s.table, batch), s.phase)
  }

  /** Every stored row is an expected row. */
  ghost predicate Subset<V>(table: map<string, V>, rows: seq<Row<V>>) {
    forall k :: k in table ==> Row(k, table[k]) in rows
  }

  ghost predicate Covered<V>(table: map<string, V>, rows: seq<Row<V>>, rest: seq<Row<V>>) {
    forall r :: r in rows ==> r in rest || r.key in table
  }

  ghost predicate Within<V>(part: seq<Row<V>>, rows: seq<Row<V>>) { forall r :: r in part ==> r in rows }

  ghost predicate ChunkInv<V>(job: Job<V>, table: map<string, V>, todo: seq<seq<Row<V>>>, i: nat)
    requires i < |todo| == |job.chunks|
  {
    Within(todo[i], AllRows(job)) && Covered(table, job.chunks[i], todo[i])
  }

  /** What every reachable state satisfies: nothing foreign is stored, and nothing that was passed over is missing. */
  ghost predicate Inv<V>(job: Job<V>, s: State<V>) {
    && Subset(s.table, AllRows(job))
    && match s.phase
       case Idle => true
       case Copying(todo) => |todo| == |job.chunks| && forall i :: 0 <= i < |todo| ==> ChunkInv(job, s.table, todo, i)
       case Planting(rest) => Within(rest, AllRows(job)) && Covered(s.table, AllRows(job), rest)
       case Finished(complete) => complete && s.table == Expected(AllRows(job))
  }

  lemma {:induction false} InFlatten<V>(chunks: seq<seq<Row<V>>>, r: Row<V>)
    ensures r in Flatten(chunks) <==> exists i :: 0 <= i < |chunks| && r in chunks[i]
  {
    if chunks == [] {
    } else {
      InFlatten(chunks[1..], r);
      if i :| 0 <= i < |chunks| && r in chunks[i] {
        if i > 0 { assert r in chunks[1..][i - 1]; }
      }
    }
  }

  /** Offering expected rows keeps the table a subset, loses nothing, and stores every key offered. */
  lemma OfferKeeps<V>(table: map<string, V>, batch: seq<Row<V>>, rows: seq<Row<V>>)
    requires Subset(table, rows) && Within(batch, rows)
    ensures Subset(Offer(table, batch), rows)
    ensures forall k :: k in table ==> k in Offer(table, batch) && Offer(table, batch)[k] == table[k]
    ensures forall r :: r in batch ==> r.key in Offer(table, batch)
  {
    OfferReads(table, batch);
  }

  lemma CutCovers<V>(rows: seq<Row<V>>, n: nat)
    requires n <= |rows|
    ensures forall r :: r in rows ==> r in rows[..n] || r in rows[n..]
    ensures Within(rows[..n], rows) && Within(rows[n..], rows)
  {
    assert rows == rows[..n] + rows[n..];
  }

  lemma SameKeysSame<V>(table: map<string, V>, rows: seq<Row<V>>)
    requires DistinctKeys(rows) && Subset(table, rows)
    requires forall r :: r in rows ==> r.key in table
    ensures table == Expected(rows)
  {
    ExpectedRows(rows);
    forall k | k in table
      ensures k in Expected(rows) && Expected(rows)[k] == table[k]
    {
      assert Row(k, table[k]) in rows;
    }
    forall k | k in Expected(rows)
      ensures k in table
    {
      assert Row(k, Expected(rows)[k]) in rows;
    }
  }

  lemma KeysWithin<V>(a: map<string, V>, b: map<string, V>)
    requires forall k :: k in a ==> k in b && b[k] == a[k]
    ensures |a| <= |b|
    ensures |a| == |b| <==> a == b
  {
    var rest := b.Keys - a.Keys;
    assert b.Keys == a.Keys + rest;
    assert |b.Keys| == |a.Keys| + |rest|;
    if |a| == |b| {
      assert rest == {};
      assert a.Keys == b.Keys;
    }
  }

  /** The count is a sound test: a subset of the expected rows that is large enough is all of them. */
  lemma CountSuffices<V>(table: map<string, V>, rows: seq<Row<V>>)
    requires DistinctKeys(rows) && Subset(table, rows)
    ensures Count(table) <= |rows|
    ensures Count(table) == |rows| <==> table == Expected(rows)
  {
    ExpectedRows(rows);
    var e := Expected(rows);
    forall k | k in table
      ensures k in e && e[k] == table[k]
    {
      assert Row(k, table[k]) in rows;
    }
    KeysWithin(table, e);
  }

  lemma AllStored<V>(job: Job<V>, s: State<V>)
    requires DistinctKeys(AllRows(job)) && Inv(job, s) && s.phase.Planting? && s.phase.rest == []
    ensures s.table == Expected(AllRows(job))
  {
    SameKeysSame(s.table, AllRows(job));
  }

  lemma WorkersCover<V>(job: Job<V>, s: State<V>)
    requires Inv(job, s) && s.phase.Copying? && forall c :: c in s.phase.todo ==> c == []
    ensures Covered(s.table, AllRows(job), job.planted) && Within(job.planted, AllRows(job))
  {
    forall r | r in AllRows(job)
      ensures r in job.planted || r.key in s.table
    {
      if r !in job.planted {
        InFlatten(job.chunks, r);
        var i :| 0 <= i < |job.chunks| && r in job.chunks[i];
        assert ChunkInv(job, s.table, s.phase.todo, i);
        assert s.phase.todo[i] in s.phase.todo;
      }
    }
  }

  lemma StartCovers<V>(job: Job<V>, table: map<string, V>)
    requires Subset(table, AllRows(job))
    ensures Inv(job, State(table, Copying(job.chunks)))
  {
    forall i | 0 <= i < |job.chunks|
      ensures ChunkInv(job, table, job.chunks, i)
    {
      forall r | r in job.chunks[i]
        ensures r in AllRows(job)
      {
        InFlatten(job.chunks, r);
      }
    }
  }

  lemma WorkerKeeps<V>(job: Job<V>, s: State<V>, t: State<V>, i: nat)
    requires Inv(job, s) && Step(job, WorkerCommits(i), s, t)
    ensures Inv(job, t)
  {
    var rows := s.phase.todo[i];
    var n := Take(job.batch, |rows|);
    assert ChunkInv(job, s.table, s.phase.todo, i);
    CutCovers(rows, n);
    OfferKeeps(s.table, rows[..n], AllRows(job));
    forall j | 0 <= j < |t.phase.todo|
      ensures ChunkInv(job, t.table, t.phase.todo, j)
    {
      assert ChunkInv(job, s.table, s.phase.todo, j);
    }
  }

  lemma StrayKeeps<V>(job: Job<V>, s: State<V>, t: State<V>, batch: seq<Row<V>>)
    requires DistinctKeys(AllRows(job)) && Inv(job, s) && Step(job, Stray(batch), s, t)
    ensures Inv(job, t)
  {
    OfferKeeps(s.table, batch, AllRows(job));
    if s.phase.Finished? {
      ExpectedRows(AllRows(job));
      SameKeysSame(t.table, AllRows(job));
    } else if s.phase.Copying? {
      forall j | 0 <= j < |t.phase.todo|
        ensures ChunkInv(job, t.table, t.phase.todo, j)
      {
        assert ChunkInv(job, s.table, s.phase.todo, j);
      }
    }
  }

  /** Every step keeps the invariant and never changes or loses a stored row. */
  lemma StepKeeps<V>(job: Job<V>, e: Event<V>, s: State<V>, t: State<V>)
    requires DistinctKeys(AllRows(job)) && Inv(job, s) && Step(job, e, s, t)
    ensures Inv(job, t)
  {
    match e
    case Begin =>
      CountSuffices(s.table, AllRows(job));
      StartCovers(job, s.table);
    case WorkerCommits(i) => WorkerKeeps(job, s, t, i);
    case WorkersDone => WorkersCover(job, s);
    case ParentCommits =>
      var n := Take(job.batch, |s.phase.rest|);
      CutCovers(s.phase.rest, n);
      OfferKeeps(s.table, s.phase.rest[..n], AllRows(job));
    case FinalCheck =>
      AllStored(job, s);
      CountSuffices(s.table, AllRows(job));
    case Crash =>
    case Stray(batch) => StrayKeeps(job, s, t, batch);
  }

  ghost predicate IsRun<V>(job: Job<V>, events: seq<Event<V>>, states: seq<State<V>>) {
    |states| == |events| + 1 && forall i :: 0 <= i < |events| ==> StepAt(job, events, states, i)
  }

  ghost predicate StepAt<V>(job: Job<V>, events: seq<Event<V>>, states: seq<State<V>>, i: nat)
    requires i < |events| && |states| == |events| + 1
  {
    Step(job, events[i], states[i], states[i + 1])
  }

  /**
   * The restartable seed: start from any table that holds some of the expected rows, let any number of runs crash
   * between commits, workers interleave in any order and outlive their run. The table stays a subset of the
   * expected rows, and whenever a run finishes, it finishes successfully and the table is exactly the expected one.
   */
  lemma {:induction false} SeedIsRestartable<V>(job: Job<V>, events: seq<Event<V>>, states: seq<State<V>>, i: nat)
    requires DistinctKeys(AllRows(job)) && IsRun(job, events, states) && i < |states|
    requires states[0].phase.Idle? && Subset(states[0].table, AllRows(job))
    ensures Inv(job, states[i])
    ensures Subset(states[i].table, AllRows(job))
    ensures states[i].phase.Finished? ==> states[i].phase.complete && states[i].table == Expected(AllRows(job))
  {
    if i == 0 {
    } else {
      SeedIsRestartable(job, events, states, i - 1);
      assert StepAt(job, events, states, i - 1);
      StepKeeps(job, events[i - 1], states[i - 1], states[i]);
    }
  }

  /** A run that is not interrupted: all the rows, offered in whatever order the workers commit them. */
  lemma UninterruptedRun<V>(job: Job<V>, table: map<string, V>, order: seq<Row<V>>)
    requires DistinctKeys(AllRows(job)) && Subset(table, AllRows(job))
    requires forall r :: r in order <==> r in AllRows(job)
    ensures Offer(table, order) == Expected(AllRows(job))
  {
    assert Within(order, AllRows(job));
    OfferKeeps(table, order, AllRows(job));
    SameKeysSame(Offer(table, order), AllRows(job));
  }

  /** The archive rows, whatever columns `value` gives them, have the distinct keys that the theorems above require. */
  lemma ArchiveRowsDistinct<V>(n: nat, value: nat -> V)
    requires n < Pow10(SeedRows.KEY_DIGITS)
    ensures DistinctKeys(ArchiveRows(n, value))
  {
    var rows := ArchiveRows(n, value);
    forall i, j | 0 <= i < j < |rows|
      ensures rows[i].key != rows[j].key
    {
      SeedFiles.DocarchFileKeysDistinct(n, i, j);
    }
  }

  /** The rows offered for the archive table, generated ones first. */
  function ArchiveRows<V>(n: nat, value: nat -> V): (rows: seq<Row<V>>)
    ensures |rows| == n + SeedFiles.PLANTED_ROWS
  {
    seq(n + SeedFiles.PLANTED_ROWS,
        g requires 0 <= g < n + SeedFiles.PLANTED_ROWS => Row(SeedFiles.DocarchFileKey(n, g), value(g)))
  }

  /** The rows offered for the audit table. */
  function AuditRows<V>(n: nat, value: nat -> V): (rows: seq<Row<V>>)
    ensures |rows| == n + SeedRows.ORPHANS
  {
    seq(n + SeedRows.ORPHANS, m requires 0 <= m < n + SeedRows.ORPHANS => Row(SeedRows.FileaudFileKey(n, m), value(m)))
  }

  lemma AuditRowsDistinct<V>(n: nat, value: nat -> V)
    requires n < Pow10(SeedRows.AUDIT_KEY_DIGITS)
    ensures DistinctKeys(AuditRows(n, value))
  {
    var rows := AuditRows(n, value);
    forall i, j | 0 <= i < j < |rows|
      ensures rows[i].key != rows[j].key
    {
      SeedRows.FileaudKeysDistinct(n, i, j);
    }
  }

  /** The rows offered for the policy table. */
  function PolicyRows<V>(value: nat -> V): (rows: seq<Row<V>>)
    ensures |rows| == SeedRows.POLICIES
  {
    seq(SeedRows.POLICIES, k requires 0 <= k < SeedRows.POLICIES => Row(SeedRows.CodeText(SeedRows.PolicyAt(k)), value(k)))
  }

  lemma PolicyRowsDistinct<V>(value: nat -> V)
    ensures DistinctKeys(PolicyRows(value))
  {
    var rows := PolicyRows(value);
    forall i, j | 0 <= i < j < |rows|
      ensures rows[i].key != rows[j].key
    {
      SeedRows.PolicyKeysDistinct(i, j);
    }
  }
}
