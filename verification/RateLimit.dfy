/** The fixed-window login limiter (demo-platform/dashboard/lib/ratelimit.ts). Times are milliseconds. */
module RateLimit {
  import Bits

  const WINDOW_MS := 15 * 60 * 1000
  const MAX_ATTEMPTS := 5
  const GLOBAL_MAX_ATTEMPTS := 20
  const BASE_BACKOFF_MS := 1000

  datatype Bucket = Bucket(count: nat, windowStart: nat, lastAttempt: nat)

  datatype RateResult = RateResult(allowed: bool, retryAfterMs: int, remaining: int)

  /** The two module-level variables. */
  datatype Limits = Limits(buckets: map<string, Bucket>, global: Bucket)

  function Fresh(now: nat): Bucket { Bucket(0, now, 0) }

  predicate Expired(b: Bucket, now: nat) { now - b.windowStart > WINDOW_MS }

  function Roll(b: Bucket, now: nat): Bucket { if Expired(b, now) then Fresh(now) else b }

  function Backoff(count: nat): nat
    requires count > 0
  {
    BASE_BACKOFF_MS * Bits.Pow2(count - 1)
  }

  /** The bucket of an address at `now`: a new one when there is none, or when its window is over. */
  function Current(s: Limits, ip: string, now: nat): Bucket {
    if ip in s.buckets then Roll(s.buckets[ip], now) else Fresh(now)
  }

  function WindowDenial(b: Bucket, now: nat): RateResult { RateResult(false, b.windowStart + WINDOW_MS - now, 0) }

  /** What a check answers. */
  function Verdict(s: Limits, ip: string, now: nat): RateResult {
    var g, b := Roll(s.global, now), Current(s, ip, now);
    if g.count >= GLOBAL_MAX_ATTEMPTS then WindowDenial(g, now)
    else if b.count >= MAX_ATTEMPTS then WindowDenial(b, now)
    else if b.count > 0 && now - b.lastAttempt < Backoff(b.count) then
      RateResult(false, Backoff(b.count) - (now - b.lastAttempt), MAX_ATTEMPTS - b.count)
    else RateResult(true, 0, MAX_ATTEMPTS - b.count)
  }

  /** What a check leaves: the global window rolled and, unless that denies, the address's window too. */
  function Checked(s: Limits, ip: string, now: nat): Limits {
    var g := Roll(s.global, now);
    Limits(if g.count >= GLOBAL_MAX_ATTEMPTS then s.buckets else s.buckets[ip := Current(s, ip, now)], g)
  }

  function CountOne(b: Bucket, now: nat): Bucket { Bucket(b.count + 1, b.windowStart, now) }

  function Failed(s: Limits, ip: string, now: nat): Limits {
    var b, g := if ip in s.buckets then s.buckets[ip] else Fresh(now), Roll(s.global, now);
    Limits(s.buckets[ip := CountOne(b, now)], CountOne(if g.count == 0 then g.(windowStart := now) else g, now))
  }

  function Cleared(s: Limits, ip: string): Limits { Limits(s.buckets - {ip}, Bucket(0, 0, 0)) }

  class Limiter {
    var buckets: map<string, Bucket>
    var globalBucket: Bucket

    ghost function State(): Limits
      reads this
    {
      Limits(buckets, globalBucket)
    }

    constructor ()
      ensures State() == Limits(map[], Bucket(0, 0, 0))
    {
      buckets, globalBucket := map[], Bucket(0, 0, 0);
    }

    method CheckRateLimit(ip: string, now: nat) returns (r: RateResult)
      modifies this
      ensures r == Verdict(old(State()), ip, now)
      ensures State() == Checked(old(State()), ip, now)
    {
      globalBucket := Roll(globalBucket, now);
      if globalBucket.count >= GLOBAL_MAX_ATTEMPTS {
        return RateResult(false, globalBucket.windowStart + WINDOW_MS - now, 0);
      }
      var b := if ip in buckets then buckets[ip] else Fresh(now);
      if ip !in buckets || now - b.windowStart > WINDOW_MS {
        b := Fresh(now);
      }
      buckets := buckets[ip := b];
      if b.count >= MAX_ATTEMPTS {
        return RateResult(false, b.windowStart + WINDOW_MS - now, 0);
      }
      if b.count > 0 {
        var backoff, waited := Backoff(b.count), now - b.lastAttempt;
        if waited < backoff {
          return RateResult(false, backoff - waited, MAX_ATTEMPTS - b.count);
        }
      }
      return RateResult(true, 0, MAX_ATTEMPTS - b.count);
    }

    method RecordFailure(ip: string, now: nat)
      modifies this
      ensures State() == Failed(old(State()), ip, now)
    {
      var b := if ip in buckets then buckets[ip] else Fresh(now);
      b := b.(count := b.count + 1);
      b := b.(lastAttempt := now);
      buckets := buckets[ip := b];
      globalBucket := Roll(globalBucket, now);
      if globalBucket.count == 0 { globalBucket := globalBucket.(windowStart := now); }
      globalBucket := globalBucket.(count := globalBucket.count + 1);
      globalBucket := globalBucket.(lastAttempt := now);
    }

    method RecordSuccess(ip: string)
      modifies this
      ensures State() == Cleared(old(State()), ip)
    {
      buckets := buckets - {ip};
      globalBucket := Bucket(0, 0, 0);
    }
  }

  // ---- how long a denied caller is told to wait ----

  predicate GlobalFull(s: Limits, now: nat) { Roll(s.global, now).count >= GLOBAL_MAX_ATTEMPTS }

  predicate AddressFull(s: Limits, ip: string, now: nat) { Current(s, ip, now).count >= MAX_ATTEMPTS }

  predicate BackingOff(s: Limits, ip: string, now: nat) {
    var b := Current(s, ip, now);
    b.count > 0 && now - b.lastAttempt < Backoff(b.count)
  }

  /**
   * A caller that waits the announced time and tries again is let in exactly when neither window was full, that is, when
   * only the back-off denied it.
   */
  lemma RetryAfterMs(s: Limits, ip: string, now: nat)
    requires !Verdict(s, ip, now).allowed
    ensures var wait := Verdict(s, ip, now).retryAfterMs;
            && wait >= 0
            && (Verdict(Checked(s, ip, now), ip, now + wait).allowed <==> !GlobalFull(s, now) && !AddressFull(s, ip, now))
  {
  }

  /**
   * After a full window one more millisecond lets the caller in exactly when the address's own window was the full one,
   * or the address is by then neither full nor backing off; the global window may hide either.
   */
  lemma OneMoreMillisecond(s: Limits, ip: string, now: nat)
    requires GlobalFull(s, now) || AddressFull(s, ip, now)
    ensures !Verdict(s, ip, now).allowed && Verdict(s, ip, now).retryAfterMs >= 0
    ensures var later := now + Verdict(s, ip, now).retryAfterMs + 1;
            Verdict(Checked(s, ip, now), ip, later).allowed <==>
            !GlobalFull(s, now) || (!AddressFull(s, ip, later) && !BackingOff(s, ip, later))
  {
  }

  /** A denied caller is told to wait zero milliseconds exactly in the last millisecond of the full window that denies it. */
  lemma NoWaitExactly(s: Limits, ip: string, now: nat)
    ensures !Verdict(s, ip, now).allowed && Verdict(s, ip, now).retryAfterMs == 0 <==>
            if GlobalFull(s, now) then now == Roll(s.global, now).windowStart + 900_000
            else AddressFull(s, ip, now) && now == Current(s, ip, now).windowStart + 900_000
  {
  }

  // ---- runs ----

  /** A check alone, or a check and, when it allows the attempt, the outcome of the attempt at the same instant. */
  datatype Event = Check(ip: string, at: nat) | Failure(ip: string, at: nat) | Success(ip: string, at: nat)

  /** The limiter and the failures it recorded: all of them, and those of each address, since the last reset. */
  datatype Trace = Trace(state: Limits, failures: seq<nat>, byIp: map<string, seq<nat>>)

  function Log(t: Trace, ip: string): seq<nat> { if ip in t.byIp then t.byIp[ip] else [] }

  const START := Trace(Limits(map[], Bucket(0, 0, 0)), [], map[])

  function Next(t: Trace, e: Event): Trace {
    var s := Checked(t.state, e.ip, e.at);
    if e.Check? || !Verdict(t.state, e.ip, e.at).allowed then t.(state := s)
    else if e.Failure? then
      Trace(Failed(s, e.ip, e.at), t.failures + [e.at], t.byIp[e.ip := Log(t, e.ip) + [e.at]])
    else Trace(Cleared(s, e.ip), [], t.byIp - {e.ip})
  }

  function After(events: seq<Event>): Trace {
    if events == [] then START else Next(After(events[..|events| - 1]), events[|events| - 1])
  }

  ghost predicate Chronological(events: seq<Event>) {
    forall i, j :: 0 <= i <= j < |events| ==> events[i].at <= events[j].at
  }

  ghost predicate Sorted(log: seq<nat>) { forall i, j :: 0 <= i <= j < |log| ==> log[i] <= log[j] }

  /** Entries that lie `gap` apart in the list lie more than a window apart in time. */
  ghost predicate Sparse(log: seq<nat>, gap: nat) {
    forall i, j :: 0 <= i && i + gap <= j < |log| ==> log[j] - log[i] > WINDOW_MS
  }

  /**
   * A bucket and the failures it has counted: the last `count` of them lie in its window, all others before it, and
   * all but the last `max` of those more than a window before it starts.
   */
  ghost predicate Counts(b: Bucket, log: seq<nat>, max: nat, now: nat) {
    && b.count <= max && b.count <= |log|
    && b.windowStart <= now
    && Sorted(log) && Sparse(log, 2 * max)
    && (forall i :: 0 <= i < |log| ==> log[i] <= now)
    && (forall i :: 0 <= i < |log| - b.count ==> log[i] < b.windowStart)
    && (forall i :: |log| - b.count <= i < |log| ==> b.windowStart <= log[i] <= b.windowStart + WINDOW_MS)
    && (forall i :: 0 <= i < |log| - b.count - max ==> b.windowStart - log[i] > WINDOW_MS)
  }

  lemma RollCounts(b: Bucket, log: seq<nat>, max: nat, then_: nat, now: nat)
    requires Counts(b, log, max, then_) && then_ <= now
    ensures Counts(Roll(b, now), log, max, now)
  {
  }

  lemma SparseAppend(log: seq<nat>, gap: nat, now: nat)
    requires Sparse(log, gap) && gap > 0
    requires forall i :: 0 <= i <= |log| - gap ==> i < |log| && now - log[i] > WINDOW_MS
    ensures Sparse(log + [now], gap)
  {
  }

  /** What lies two counts back lies before the window, and by more than a window. */
  lemma OldFailures(b: Bucket, log: seq<nat>, max: nat, now: nat)
    requires Counts(b, log, max, now) && b.count < max
    ensures forall i :: 0 <= i <= |log| - 2 * max ==> i < |log| && now - log[i] > WINDOW_MS
    ensures forall i :: 0 <= i <= |log| - b.count - 1 - max ==> b.windowStart - log[i] > WINDOW_MS
  {
  }

  lemma CountedAppend(b: Bucket, log: seq<nat>, now: nat)
    requires Sorted(log) && b.count <= |log|
    requires forall i :: 0 <= i < |log| ==> log[i] <= now
    ensures Sorted(log + [now]) && forall i :: 0 <= i < |log + [now]| ==> (log + [now])[i] <= now
  {
  }

  lemma FailureCounts(b: Bucket, log: seq<nat>, max: nat, now: nat)
    requires Counts(b, log, max, now) && b.count < max && !Expired(b, now)
    ensures Counts(CountOne(b, now), log + [now], max, now)
  {
    OldFailures(b, log, max, now);
    SparseAppend(log, 2 * max, now);
    CountedAppend(b, log, now);
  }

  /** The k-th failure of a window comes at least the sum of the back-offs before it after the earlier ones. */
  ghost predicate BacksOff(b: Bucket, log: seq<nat>) {
    && b.count <= |log|
    && (b.count > 0 ==> b.lastAttempt == log[|log| - 1])
    && forall p, q :: 0 <= p <= q < b.count ==>
         log[|log| - b.count + q] - log[|log| - b.count + p] >= BASE_BACKOFF_MS * (Bits.Pow2(q) - Bits.Pow2(p))
  }

  ghost predicate IpInv(t: Trace, ip: string, now: nat) {
    if ip in t.state.buckets then
      Counts(t.state.buckets[ip], Log(t, ip), MAX_ATTEMPTS, now) && BacksOff(t.state.buckets[ip], Log(t, ip))
    else Log(t, ip) == []
  }

  /** What every reachable state satisfies. */
  ghost predicate Inv(t: Trace, now: nat) {
    && Counts(t.state.global, t.failures, GLOBAL_MAX_ATTEMPTS, now)
    && forall ip :: IpInv(t, ip, now)
  }

  lemma FailureBacksOff(b: Bucket, log: seq<nat>, now: nat)
    requires BacksOff(b, log) && (b.count > 0 ==> now - b.lastAttempt >= Backoff(b.count))
    ensures BacksOff(CountOne(b, now), log + [now])
  {
    var c, more := CountOne(b, now), log + [now];
    forall p, q | 0 <= p <= q < c.count
      ensures more[|more| - c.count + q] - more[|more| - c.count + p] >= BASE_BACKOFF_MS * (Bits.Pow2(q) - Bits.Pow2(p))
    {
      if q == b.count && p < q {
        assert log[|log| - b.count + (q - 1)] - log[|log| - b.count + p] >=
               BASE_BACKOFF_MS * (Bits.Pow2(q - 1) - Bits.Pow2(p));
      }
    }
  }

  lemma CheckKeeps(t: Trace, ip: string, then_: nat, now: nat)
    requires Inv(t, then_) && then_ <= now
    ensures Inv(t.(state := Checked(t.state, ip, now)), now)
    ensures var b := Current(t.state, ip, now);
            Counts(b, Log(t, ip), MAX_ATTEMPTS, now) && BacksOff(b, Log(t, ip)) && !Expired(b, now)
  {
    var u := t.(state := Checked(t.state, ip, now));
    RollCounts(t.state.global, t.failures, GLOBAL_MAX_ATTEMPTS, then_, now);
    CurrentCounts(t, ip, then_, now);
    forall other
      ensures IpInv(u, other, now)
    {
      assert IpInv(t, other, then_);
    }
  }

  lemma CurrentCounts(t: Trace, ip: string, then_: nat, now: nat)
    requires IpInv(t, ip, then_) && then_ <= now
    ensures var b := Current(t.state, ip, now);
            Counts(b, Log(t, ip), MAX_ATTEMPTS, now) && BacksOff(b, Log(t, ip)) && !Expired(b, now)
  {
    if ip in t.state.buckets { RollCounts(t.state.buckets[ip], Log(t, ip), MAX_ATTEMPTS, then_, now); }
  }

  lemma FailureKeeps(t: Trace, ip: string, then_: nat, now: nat)
    requires Inv(t, then_) && then_ <= now && Verdict(t.state, ip, now).allowed
    ensures Inv(Next(t, Failure(ip, now)), now)
  {
    var u := t.(state := Checked(t.state, ip, now));
    CheckKeeps(t, ip, then_, now);
    var g, b := u.state.global, u.state.buckets[ip];
    assert Roll(g, now) == g;
    var g0 := if g.count == 0 then g.(windowStart := now) else g;
    FailureCounts(g0, t.failures, GLOBAL_MAX_ATTEMPTS, now);
    FailureCounts(b, Log(t, ip), MAX_ATTEMPTS, now);
    FailureBacksOff(b, Log(t, ip), now);
    var v := Next(t, Failure(ip, now));
    forall other
      ensures IpInv(v, other, now)
    {
      assert IpInv(u, other, now);
    }
  }

  lemma StepKeeps(t: Trace, e: Event, then_: nat)
    requires Inv(t, then_) && then_ <= e.at
    ensures Inv(Next(t, e), e.at)
  {
    CheckKeeps(t, e.ip, then_, e.at);
    if Verdict(t.state, e.ip, e.at).allowed {
      if e.Failure? {
        FailureKeeps(t, e.ip, then_, e.at);
      } else if e.Success? {
        var u, v := t.(state := Checked(t.state, e.ip, e.at)), Next(t, e);
        forall other
          ensures IpInv(v, other, e.at)
        {
          assert IpInv(u, other, e.at);
        }
      }
    }
  }

  lemma {:induction false} Reachable(events: seq<Event>)
    requires Chronological(events)
    ensures Inv(After(events), if events == [] then 0 else events[|events| - 1].at)
  {
    if events == [] {
    } else {
      var front := events[..|events| - 1];
      Reachable(front);
      StepKeeps(After(front), events[|events| - 1], if front == [] then 0 else front[|front| - 1].at);
    }
  }

  // ---- the bounds ----

  /** How many entries lie in the closed interval that starts at `from` and is one window of fifteen minutes long. */
  function InInterval(log: seq<nat>, from: nat): nat {
    if log == [] then 0
    else InInterval(log[..|log| - 1], from) +
         if from <= log[|log| - 1] <= from + 900_000 then 1 else 0
  }

  /** It is the number of entries from `from` to fifteen minutes later, both included. */
  lemma {:induction false} InIntervalCounts(log: seq<nat>, from: nat)
    ensures InInterval(log, from) == |set i | 0 <= i < |log| && 0 <= log[i] - from <= 15 * 60 * 1000|
  {
    var all := set i | 0 <= i < |log| && 0 <= log[i] - from <= 15 * 60 * 1000;
    if log == [] {
      assert all == {};
    } else {
      var n := |log| - 1;
      InIntervalCounts(log[..n], from);
      var front := set i | 0 <= i < n && 0 <= log[..n][i] - from <= 15 * 60 * 1000;
      assert all == front + if from <= log[n] <= from + 900_000 then {n} else {};
    }
  }

  lemma {:induction false} InIntervalBound(log: seq<nat>, from: nat, first: nat)
    requires Sorted(log)
    requires first <= |log| && forall i :: 0 <= i < first ==> log[i] < from
    ensures InInterval(log, from) <= |log| - first
  {
    if |log| > first {
      InIntervalBound(log[..|log| - 1], from, first);
    } else if log != [] {
      InIntervalBound(log[..|log| - 1], from, first - 1);
    }
  }

  lemma {:induction false} SparseBound(log: seq<nat>, gap: nat, from: nat)
    requires Sorted(log) && Sparse(log, gap) && gap > 0
    ensures InInterval(log, from) <= gap
  {
    if |log| > gap {
      var last := |log| - 1;
      SparseBound(log[..last], gap, from);
      if from <= log[last] <= from + 900_000 {
        assert log[last] - log[last - gap] > WINDOW_MS;
        InIntervalBound(log, from, last - gap + 1);
      }
    } else {
      InIntervalBound(log, from, 0);
    }
  }

  /**
   * Over any run of checks, failures and successes in the order of time, every closed interval of one window holds at
   * most 40 of the recorded failures since the last success, and at most 10 of one address.
   */
  lemma AtMostTwoWindows(events: seq<Event>, ip: string, from: nat)
    requires Chronological(events)
    ensures InInterval(After(events).failures, from) <= 40
    ensures InInterval(Log(After(events), ip), from) <= 10
  {
    Reachable(events);
    var t := After(events);
    SparseBound(t.failures, 2 * GLOBAL_MAX_ATTEMPTS, from);
    var now := if events == [] then 0 else events[|events| - 1].at;
    assert IpInv(t, ip, now);
    SparseBound(Log(t, ip), 2 * MAX_ATTEMPTS, from);
  }

  /** The failures of an address in its current window span at least the sum of the doubling back-offs. */
  lemma BackoffSpan(events: seq<Event>, ip: string)
    requires Chronological(events) && ip in After(events).state.buckets && After(events).state.buckets[ip].count > 0
    ensures var k, log := After(events).state.buckets[ip].count, Log(After(events), ip);
            k <= |log| && log[|log| - 1] - log[|log| - k] >= 1000 * (Bits.Pow2(k - 1) - 1)
  {
    Reachable(events);
    var now := if events == [] then 0 else events[|events| - 1].at;
    assert IpInv(After(events), ip, now);
    var k, log := After(events).state.buckets[ip].count, Log(After(events), ip);
    assert log[|log| - k + (k - 1)] - log[|log| - k + 0] >= BASE_BACKOFF_MS * (Bits.Pow2(k - 1) - Bits.Pow2(0));
  }

  /** Without a success the lists that the bounds speak of hold every failure that was let through. */
  lemma {:induction false} NothingForgotten(events: seq<Event>)
    requires forall e :: e in events ==> !e.Success?
    ensures After(events).failures == Admitted(events, |events|)
  {
    if events == [] {
    } else {
      var front := events[..|events| - 1];
      NothingForgotten(front);
      AdmittedPrefix(events, front, |front|);
    }
  }

  /** The instants of the failures among the first `n` events whose attempt the limiter allowed. */
  function Admitted(events: seq<Event>, n: nat): seq<nat>
    requires n <= |events|
  {
    if n == 0 then []
    else
      var e, before := events[n - 1], After(events[..n - 1]).state;
      Admitted(events, n - 1) + if e.Failure? && Verdict(before, e.ip, e.at).allowed then [e.at] else []
  }

  lemma {:induction false} AdmittedPrefix(events: seq<Event>, front: seq<Event>, n: nat)
    requires n <= |front| < |events| && front == events[..|front|]
    ensures Admitted(events, n) == Admitted(front, n)
  {
    if n == 0 {
    } else {
      AdmittedPrefix(events, front, n - 1);
      assert events[..n - 1] == front[..n - 1] && events[n - 1] == front[n - 1];
    }
  }

  // ---- a run that ends with a wait of zero ----

  const ADDRESS := "a"

  /** The first failure of an address, and the later ones as soon as the back-off allows them. */
  const FIVE_FAILURES := [Failure(ADDRESS, 0), Failure(ADDRESS, 1000), Failure(ADDRESS, 3000), Failure(ADDRESS, 7000),
                          Failure(ADDRESS, 15_000)]

  lemma AfterPush(events: seq<Event>, e: Event)
    ensures After(events + [e]) == Next(After(events), e)
  {
    assert (events + [e])[..|events|] == events;
  }

  /** The limiter after `n` failures of one address, all in the window that starts at zero. */
  ghost predicate Counted(t: Trace, n: nat, last: nat) {
    && t.state.buckets.Keys == {ADDRESS} && t.state.buckets[ADDRESS] == Bucket(n, 0, last)
    && t.state.global == Bucket(n, 0, last)
  }

  lemma FirstFailure()
    ensures Counted(Next(START, Failure(ADDRESS, 0)), 1, 0)
  {
  }

  lemma NextFailure(t: Trace, n: nat, last: nat, at: nat)
    requires 1 <= n < MAX_ATTEMPTS && Counted(t, n, last) && last + Backoff(n) <= at <= WINDOW_MS
    ensures Counted(Next(t, Failure(ADDRESS, at)), n + 1, at)
  {
  }

  /** Five failures, then a check at the end of the window: denied, with nothing to wait for. */
  lemma DeniedWithNoWait()
    ensures Chronological(FIVE_FAILURES)
    ensures Verdict(After(FIVE_FAILURES).state, ADDRESS, 900_000) == RateResult(false, 0, 0)
  {
    var e := FIVE_FAILURES;
    var t1 := After([] + [e[0]]);
    AfterPush([], e[0]);
    FirstFailure();
    AfterPush([] + [e[0]], e[1]);
    NextFailure(t1, 1, 0, 1000);
    var t2 := Next(t1, e[1]);
    AfterPush([] + [e[0]] + [e[1]], e[2]);
    NextFailure(t2, 2, 1000, 3000);
    var t3 := Next(t2, e[2]);
    AfterPush([] + [e[0]] + [e[1]] + [e[2]], e[3]);
    NextFailure(t3, 3, 3000, 7000);
    var t4 := Next(t3, e[3]);
    AfterPush([] + [e[0]] + [e[1]] + [e[2]] + [e[3]], e[4]);
    NextFailure(t4, 4, 7000, 15_000);
    assert e == [] + [e[0]] + [e[1]] + [e[2]] + [e[3]] + [e[4]];
  }

  // ---- a run after which one more millisecond is not enough ----

  const OTHERS := 15
  const START_AT := 500
  const ASKED_AT := 20_000

  /** Addresses that differ from one another and from the one that asks. */
  function Other(i: nat): string { seq(i + 2, _ => 'x') }

  /** The first failures of `k` other addresses. */
  function OthersFail(k: nat): seq<Event> {
    if k == 0 then [] else OthersFail(k - 1) + [Failure(Other(k - 1), 0)]
  }

  /** The limiter after `k` such failures. */
  ghost predicate CountsOthers(s: Limits, k: nat) {
    s.global == Bucket(k, 0, 0) && forall ip :: ip in s.buckets ==> 2 <= |ip| < k + 2
  }

  lemma {:induction false} AfterOthers(k: nat)
    requires k <= OTHERS
    ensures CountsOthers(After(OthersFail(k)).state, k)
  {
    if k == 0 {
    } else {
      AfterOthers(k - 1);
      AfterPush(OthersFail(k - 1), Failure(Other(k - 1), 0));
      OtherCounted(After(OthersFail(k - 1)), k - 1);
    }
  }

  lemma OtherCounted(t: Trace, k: nat)
    requires k < OTHERS && CountsOthers(t.state, k)
    ensures CountsOthers(Next(t, Failure(Other(k), 0)).state, k + 1)
  {
    assert |Other(k)| == k + 2;
    OtherFails(t, k, Other(k));
  }

  lemma OtherFails(t: Trace, k: nat, ip: string)
    requires k < OTHERS && t.state.global == Bucket(k, 0, 0) && ip !in t.state.buckets
    ensures Next(t, Failure(ip, 0)).state == Limits(t.state.buckets[ip := Bucket(1, 0, 0)], Bucket(k + 1, 0, 0))
  {
  }

  /** A failure of an address that is not backing off, in the windows that began at zero and at `START_AT`. */
  lemma AddressFails(t: Trace, n: nat, at: nat, last: nat)
    requires n < MAX_ATTEMPTS && START_AT <= at <= ASKED_AT
    requires t.state.global.count == OTHERS + n && t.state.global.windowStart == 0
    requires if n == 0 then ADDRESS !in t.state.buckets && at == START_AT
             else && ADDRESS in t.state.buckets && t.state.buckets[ADDRESS] == Bucket(n, START_AT, last)
                  && at == last + Backoff(n)
    ensures var s := Next(t, Failure(ADDRESS, at)).state;
            && s.global.count == OTHERS + n + 1 && s.global.windowStart == 0
            && ADDRESS in s.buckets && s.buckets[ADDRESS] == Bucket(n + 1, START_AT, at)
  {
  }

  /** When the address fails for the n-th time: as soon as the back-off allows. */
  function FailsAt(n: nat): nat { START_AT + BASE_BACKOFF_MS * (Bits.Pow2(n) - 1) }

  /** Then `n` failures of the address that asks. */
  function AllFail(n: nat): seq<Event> {
    if n == 0 then OthersFail(OTHERS) else AllFail(n - 1) + [Failure(ADDRESS, FailsAt(n - 1))]
  }

  lemma FailsWithin(n: nat)
    requires n < MAX_ATTEMPTS
    ensures FailsAt(n) <= ASKED_AT && (n > 0 ==> FailsAt(n) == FailsAt(n - 1) + Backoff(n))
  {
    if n > 0 { assert Bits.Pow2(n) == 2 * Bits.Pow2(n - 1); }
    assert Bits.Pow2(4) == 16;
  }

  /** The limiter after the other addresses and `n` failures of the one that asks. */
  ghost predicate CountsAddress(s: Limits, n: nat) {
    && s.global.count == OTHERS + n && s.global.windowStart == 0
    && (if n == 0 then ADDRESS !in s.buckets
        else ADDRESS in s.buckets && s.buckets[ADDRESS] == Bucket(n, START_AT, FailsAt(n - 1)))
  }

  lemma AddressCounted(t: Trace, n: nat)
    requires n < MAX_ATTEMPTS && CountsAddress(t.state, n)
    ensures CountsAddress(Next(t, Failure(ADDRESS, FailsAt(n))).state, n + 1)
  {
    FailsWithin(n);
    AddressFails(t, n, FailsAt(n), if n == 0 then 0 else FailsAt(n - 1));
  }

  lemma {:induction false} AfterAll(n: nat)
    requires n <= MAX_ATTEMPTS
    ensures CountsAddress(After(AllFail(n)).state, n)
  {
    if n == 0 {
      AfterOthers(OTHERS);
      assert |ADDRESS| == 1;
    } else {
      AfterAll(n - 1);
      AfterPush(AllFail(n - 1), Failure(ADDRESS, FailsAt(n - 1)));
      AddressCounted(After(AllFail(n - 1)), n - 1);
    }
  }

  lemma {:induction false} OthersAtZero(k: nat)
    ensures forall i :: 0 <= i < |OthersFail(k)| ==> OthersFail(k)[i].at == 0
  {
    if k == 0 {
    } else {
      OthersAtZero(k - 1);
    }
  }

  lemma {:induction false} AllInOrder(n: nat)
    requires n <= MAX_ATTEMPTS
    ensures Chronological(AllFail(n))
    ensures forall i :: 0 <= i < |AllFail(n)| ==> AllFail(n)[i].at <= if n == 0 then 0 else FailsAt(n - 1)
  {
    if n == 0 {
      OthersAtZero(OTHERS);
    } else {
      AllInOrder(n - 1);
      FailsWithin(n - 1);
    }
  }

  /** Twenty failures in one window, the last five of one address: its own window outlasts the global one. */
  lemma OneMoreIsNotEnough()
    ensures Chronological(AllFail(MAX_ATTEMPTS))
    ensures var s := After(AllFail(MAX_ATTEMPTS)).state;
            var wait := Verdict(s, ADDRESS, ASKED_AT).retryAfterMs;
            && !Verdict(s, ADDRESS, ASKED_AT).allowed && wait == 900_000 - ASKED_AT
            && !Verdict(Checked(s, ADDRESS, ASKED_AT), ADDRESS, ASKED_AT + wait + 1).allowed
  {
    AllInOrder(MAX_ATTEMPTS);
    AfterAll(MAX_ATTEMPTS);
  }
}
