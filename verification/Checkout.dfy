/** The tenant checkout protocol over two DynamoDB items (demo-platform/dashboard/lib/control.ts). */
module Checkout {
  import opened Results

  datatype TenantStatus = Free | Reserved | Deploying | ActiveTenant | Draining | ErrorStatus

  datatype Tier = A | B

  datatype CheckoutInput = CheckoutInput(id: string, owner: string, branch: string, tier: Tier, imageTag: Option<string>,
                                         ttlSeconds: int, hostSuffix: string, lockTtlSeconds: Option<int>, persistent: bool)

  /** The LOCK item. */
  datatype Lock = Lock(owner: string, acquiredAt: int, ttl: int)

  /** The META item. */
  datatype Tenant = Tenant(id: string, status: TenantStatus, owner: string, branch: string, tier: Tier,
                           imageTag: Option<string>, url: string, apiUrl: string, dbName: string, namespace: string,
                           createdAt: int, checkedOutAt: int, expiresAt: int, lastSeenAt: int, persistent: bool)

  const DEFAULT_LOCK_TTL := 15 * 60

  function NewLock(input: CheckoutInput, now: int): Lock {
    Lock(input.owner, now, now + if input.lockTtlSeconds.Some? then input.lockTtlSeconds.value else DEFAULT_LOCK_TTL)
  }

  function NewTenant(input: CheckoutInput, now: int): Tenant {
    Tenant(input.id, Deploying, input.owner, input.branch, input.tier, input.imageTag,
           "https://t-" + input.id + "." + input.hostSuffix, "https://api-t-" + input.id + "." + input.hostSuffix,
           "otterworks_" + input.id, "otterworks-" + input.id, now, now, now + input.ttlSeconds, now, input.persistent)
  }

  /** `attribute_not_exists(PK) OR status = free OR status = error`. */
  predicate Spent(meta: Option<Tenant>) {
    meta.None? || meta.value.status == Free || meta.value.status == ErrorStatus
  }

  function Find<V>(m: map<string, V>, id: string): Option<V> { if id in m then Some(m[id]) else None }

  /**
   * What a checkout writes: a lock of the given seconds, or fifteen minutes, and a record that names all parts by the
   * id.
   */
  lemma CheckoutWrites(input: CheckoutInput, now: int)
    ensures var l, t := NewLock(input, now), NewTenant(input, now);
            && l.owner == t.owner == input.owner && l.acquiredAt == now
            && l.ttl - now == (match input.lockTtlSeconds case Some(n) => n case None => 900)
            && t.id == input.id && t.status == Deploying && t.branch == input.branch && t.tier == input.tier
            && t.imageTag == input.imageTag && t.persistent == input.persistent
            && t.createdAt == t.checkedOutAt == t.lastSeenAt == now && t.expiresAt - now == input.ttlSeconds
            && t.url == "https://t-" + (input.id + ("." + input.hostSuffix))
            && t.apiUrl == "https://api-t-" + (input.id + ("." + input.hostSuffix))
            && t.dbName == "otterworks_" + input.id && t.namespace == "otterworks-" + input.id
  {
  }

  lemma Apart(head: string, a: string, b: string, tail: string)
    ensures head + (a + tail) == head + (b + tail) <==> a == b
  {
    var s, t := head + (a + tail), head + (b + tail);
    if s == t {
      assert |a| == |b|;
      assert s[|head|..|head| + |a|] == a && t[|head|..|head| + |b|] == b;
    }
  }

  /** Records of different ids under one host share no address, no database and no namespace. */
  lemma RecordsApart(a: CheckoutInput, b: CheckoutInput, now: int, later: int)
    requires a.id != b.id && a.hostSuffix == b.hostSuffix
    ensures var t, u := NewTenant(a, now), NewTenant(b, later);
            t.url != u.url && t.apiUrl != u.apiUrl && t.dbName != u.dbName && t.namespace != u.namespace
  {
    CheckoutWrites(a, now);
    CheckoutWrites(b, later);
    var tail := "." + a.hostSuffix;
    Apart("https://t-", a.id, b.id, tail);
    Apart("https://api-t-", a.id, b.id, tail);
    Apart("otterworks_", a.id, b.id, "");
    Apart("otterworks-", a.id, b.id, "");
    assert a.id + "" == a.id && b.id + "" == b.id;
  }

  // ---- the control table, one call at a time ----

  /** The items of the control table, by tenant id. */
  class ControlTable {
    var locks: map<string, Lock>
    var metas: map<string, Tenant>

    constructor ()
      ensures locks == map[] && metas == map[]
    {
      locks, metas := map[], map[];
    }

    /** A put of the LOCK item that fails when the item exists. */
    method PutLock(id: string, lock: Lock) returns (ok: bool)
      modifies this`locks
      ensures ok <==> id !in old(locks)
      ensures locks == if ok then old(locks)[id := lock] else old(locks)
    {
      ok := id !in locks;
      if ok { locks := locks[id := lock]; }
    }

    /** A put of the META item that fails on a live record. */
    method PutMeta(id: string, meta: Tenant) returns (ok: bool)
      modifies this`metas
      ensures ok <==> id !in old(metas) || old(metas)[id].status == Free || old(metas)[id].status == ErrorStatus
      ensures metas == if ok then old(metas)[id := meta] else old(metas)
    {
      ok := Spent(Find(metas, id));
      if ok { metas := metas[id := meta]; }
    }

    method ReleaseLock(id: string)
      modifies this`locks
      ensures locks == old(locks) - {id}
    {
      locks := locks - {id};
    }

    /** `setStatus`: an update that fails on a missing record. */
    method SetStatus(id: string, status: TenantStatus, now: int) returns (ok: bool)
      modifies this`metas
      ensures ok <==> id in old(metas)
      ensures metas == if ok then old(metas)[id := old(metas)[id].(status := status, lastSeenAt := now)] else old(metas)
    {
      ok := id in metas;
      if ok { metas := metas[id := metas[id].(status := status, lastSeenAt := now)]; }
    }

    /**
     * `checkout`, undisturbed: it succeeds exactly when the id is not locked and its record is missing, free or failed;
     * a call that loses leaves the whole table as it was.
     */
    method Checkout(input: CheckoutInput, now: int) returns (r: Option<Tenant>)
      modifies this
      ensures r.Some? <==>
                && input.id !in old(locks)
                && (input.id !in old(metas) || old(metas)[input.id].status in {Free, ErrorStatus})
      ensures r.None? ==> locks == old(locks) && metas == old(metas)
      ensures r.Some? ==> r.value == NewTenant(input, now) && metas == old(metas)[input.id := r.value]
      ensures r.Some? ==> locks == old(locks)[input.id := NewLock(input, now)]
    {
      var locked := PutLock(input.id, NewLock(input, now));
      if !locked { return None; }
      var item := NewTenant(input, now);
      var put := PutMeta(input.id, item);
      if !put {
        ReleaseLock(input.id);
        assert locks == old(locks);
        return None;
      }
      return Some(item);
    }
  }

  // ---- interleaved calls on one id ----

  datatype Phase = Idle | Holding | Refused | Won | Lost

  /** The two items of one id, and how far each call has come. */
  datatype State = State(lock: Option<nat>, meta: Option<Tenant>, calls: map<nat, Phase>)

  function PhaseOf(s: State, c: nat): Phase { if c in s.calls then s.calls[c] else Idle }

  datatype Event =
    | TryLock(call: nat)                                       // the conditional put of the lock
    | TryMeta(call: nat, input: CheckoutInput, now: int)       // the conditional put of the record
    | Undo(call: nat, deleted: bool)                           // a refused call deletes the lock, or fails to
    | Abort(call: nat)                                         // the call dies
    | LockGone                                                 // the lock expires or is released from outside
    | SetStatus(status: TenantStatus, now: int)
    | Touch(meta: Tenant)                                      // any other update that keeps the status
    | Removed                                                  // the record is deleted

  /** Which steps are possible: every item operation is atomic, calls interleave freely. */
  predicate Enabled(s: State, e: Event) {
    match e
    case TryLock(c) => PhaseOf(s, c) == Idle
    case TryMeta(c, _, _) => PhaseOf(s, c) == Holding
    case Undo(c, _) => PhaseOf(s, c) == Refused
    case Abort(c) => PhaseOf(s, c) == Holding || PhaseOf(s, c) == Refused
    case LockGone => true
    case SetStatus(_, _) => s.meta.Some?
    case Touch(m) => s.meta.Some? && m.status == s.meta.value.status
    case Removed => true
  }

  function Next(s: State, e: Event): State {
    match e
    case TryLock(c) =>
      if s.lock.None? then s.(lock := Some(c), calls := s.calls[c := Holding]) else s.(calls := s.calls[c := Lost])
    case TryMeta(c, input, now) =>
      if Spent(s.meta) then s.(meta := Some(NewTenant(input, now)), calls := s.calls[c := Won])
      else s.(calls := s.calls[c := Refused])
    case Undo(c, deleted) =>
      s.(lock := if deleted then None else s.lock, calls := s.calls[c := Lost])
    case Abort(c) => s.(calls := s.calls[c := Lost])
    case LockGone => s.(lock := None)
    case SetStatus(status, now) =>
      if s.meta.None? then s else s.(meta := Some(s.meta.value.(status := status, lastSeenAt := now)))
    case Touch(m) => if s.meta.None? then s else s.(meta := Some(m))
    case Removed => s.(meta := None)
  }

  /** A call between its puts can go on or die at any moment; and nothing can be done twice. */
  lemma CallSteps(s: State, c: nat, input: CheckoutInput, now: int, deleted: bool)
    ensures Enabled(s, TryLock(c)) <==> PhaseOf(s, c) == Idle
    ensures Enabled(s, TryMeta(c, input, now)) || Enabled(s, Undo(c, deleted)) <==> Between(s, c)
    ensures Enabled(s, Abort(c)) <==> Between(s, c)
    ensures !(Enabled(s, TryMeta(c, input, now)) && Enabled(s, Undo(c, deleted)))
    ensures Enabled(s, LockGone) && Enabled(s, Removed)
  {
  }

  /** An update of the record is possible exactly when there is one, and only a change of status changes the status. */
  lemma RecordSteps(s: State, status: TenantStatus, now: int, m: Tenant)
    ensures Enabled(s, SetStatus(status, now)) <==> s.meta.Some?
    ensures Enabled(s, Touch(m)) <==> exists t :: s.meta == Some(t) && t.status == m.status
    ensures s.meta.Some? ==> Next(s, SetStatus(status, now)).meta ==
                             Some(s.meta.value.(status := status, lastSeenAt := now))
  {
  }

  /** A possible step takes its own call on, and no other. */
  lemma OwnStepsOnly(s: State, e: Event, c: nat)
    requires Enabled(s, e)
    ensures PhaseOf(Next(s, e), c) != PhaseOf(s, c) <==> OfCall(e, c)
  {
  }

  /** Undisturbed, the two puts of a call in a row do what a whole checkout does. */
  lemma UndisturbedCall(s: State, c: nat, input: CheckoutInput, now: int)
    requires PhaseOf(s, c) == Idle
    ensures var locked := Next(s, TryLock(c));
            var put := Next(locked, TryMeta(c, input, now));
            && (s.lock.Some? ==> PhaseOf(locked, c) == Lost && locked.lock == s.lock && locked.meta == s.meta)
            && (s.lock.None? ==> locked.lock == Some(c) && Enabled(locked, TryMeta(c, input, now)))
            && (s.lock.None? && (s.meta.None? || s.meta.value.status in {Free, ErrorStatus}) ==>
                  PhaseOf(put, c) == Won && put.lock == Some(c) && put.meta == Some(NewTenant(input, now)))
            && (s.lock.None? && s.meta.Some? && s.meta.value.status !in {Free, ErrorStatus} ==>
                  var undone := Next(put, Undo(c, true));
                  Enabled(put, Undo(c, true)) && undone.lock == None && undone.meta == s.meta)
  {
  }

  function After(s: State, events: seq<Event>): State {
    if events == [] then s else Next(After(s, events[..|events| - 1]), events[|events| - 1])
  }

  ghost predicate EnabledAt(s: State, events: seq<Event>, i: nat)
    requires i < |events|
  {
    Enabled(After(s, events[..i]), events[i])
  }

  ghost predicate Legal(s: State, events: seq<Event>) { forall i :: 0 <= i < |events| ==> EnabledAt(s, events, i) }

  lemma AfterNext(s: State, events: seq<Event>, i: nat)
    requires i < |events|
    ensures After(s, events[..i + 1]) == Next(After(s, events[..i]), events[i])
  {
    assert events[..i + 1][..i] == events[..i];
  }

  /** Event `i` is a checkout that succeeds. */
  predicate Succeeds(s: State, events: seq<Event>, i: nat)
    requires i < |events|
  {
    events[i].TryMeta? && Spent(After(s, events[..i]).meta)
  }

  /** Event `i` ends the occupation: it frees the record, marks it failed, or deletes it. */
  predicate Frees(events: seq<Event>, i: nat)
    requires i < |events|
  {
    events[i] == Removed || (events[i].SetStatus? && (events[i].status == Free || events[i].status == ErrorStatus))
  }

  lemma OccupiedStays(s: State, e: Event)
    requires Enabled(s, e) && !Spent(s.meta)
    requires e != Removed && !(e.SetStatus? && (e.status == Free || e.status == ErrorStatus))
    ensures !Spent(Next(s, e).meta)
  {
  }

  lemma {:induction false} Occupied(s: State, events: seq<Event>, i: nat, k: nat)
    requires Legal(s, events) && i < k <= |events| && Succeeds(s, events, i)
    requires forall m: nat :: i < m < k ==> !Frees(events, m)
    ensures !Spent(After(s, events[..k]).meta)
  {
    AfterNext(s, events, k - 1);
    if k == i + 1 {
    } else {
      Occupied(s, events, i, k - 1);
      assert EnabledAt(s, events, k - 1) && !Frees(events, k - 1);
      OccupiedStays(After(s, events[..k - 1]), events[k - 1]);
    }
  }

  /**
   * Whatever the interleaving, and whenever the lock expires or is deleted: between two successful checkouts the
   * record was freed, marked failed or deleted.
   */
  lemma SuccessesSeparated(s: State, events: seq<Event>, i: nat, j: nat)
    requires Legal(s, events) && i < j < |events| && Succeeds(s, events, i) && Succeeds(s, events, j)
    ensures exists k: nat :: i < k < j && Frees(events, k)
  {
    if forall k: nat :: i < k < j ==> !Frees(events, k) {
      Occupied(s, events, i, j);
    }
  }

  /** Between a success and the next event that frees or rewrites the record, it is the winner's but for its status. */
  lemma {:induction false} WinnersRecord(s: State, events: seq<Event>, i: nat, k: nat)
    requires Legal(s, events) && i < k <= |events| && Succeeds(s, events, i)
    requires forall m: nat :: i < m < k ==> !Frees(events, m) && !events[m].Touch?
    ensures var r := After(s, events[..k]).meta;
            r.Some? && r.value == NewTenant(events[i].input, events[i].now).(status := r.value.status,
                                                                            lastSeenAt := r.value.lastSeenAt)
  {
    AfterNext(s, events, k - 1);
    if k == i + 1 {
    } else {
      WinnersRecord(s, events, i, k - 1);
      Occupied(s, events, i, k - 1);
      assert EnabledAt(s, events, k - 1) && !Frees(events, k - 1) && !events[k - 1].Touch?;
    }
  }

  /** The call an event belongs to. */
  predicate OfCall(e: Event, c: nat) {
    match e
    case TryLock(d) => c == d
    case TryMeta(d, _, _) => c == d
    case Undo(d, _) => c == d
    case Abort(d) => c == d
    case _ => false
  }

  lemma {:induction false} WonStays(s: State, events: seq<Event>, c: nat, i: nat)
    requires Legal(s, events) && i <= |events| && PhaseOf(After(s, events[..i]), c) == Won
    ensures PhaseOf(After(s, events), c) == Won
    decreases |events| - i
  {
    if i < |events| {
      AfterNext(s, events, i);
      assert EnabledAt(s, events, i);
      WonStays(s, events, c, i + 1);
    } else {
      assert events[..i] == events;
    }
  }

  /** A call that has not won never touched the record, at none of its steps. */
  lemma LosersTouchNothing(s: State, events: seq<Event>, c: nat, i: nat)
    requires Legal(s, events) && i < |events| && OfCall(events[i], c) && PhaseOf(After(s, events), c) != Won
    ensures After(s, events[..i + 1]).meta == After(s, events[..i]).meta
  {
    AfterNext(s, events, i);
    if Succeeds(s, events, i) { WonStays(s, events, c, i + 1); }
  }

  /** The lock item excludes: only its holder can be between the two puts. */
  ghost predicate Exclusive(s: State) {
    forall c: nat :: Between(s, c) ==> s.lock == Some(c)
  }

  /** The call is between its two puts, or about to undo the first. */
  predicate Between(s: State, c: nat) { PhaseOf(s, c) == Holding || PhaseOf(s, c) == Refused }

  /** The lock item disappears while a call relies on it. */
  ghost predicate LosesLock(s: State, e: Event) { e.LockGone? && exists c: nat :: Between(s, c) }

  /** Exclusion survives a step exactly when the step is not an expiry while some call is between its puts. */
  lemma ExclusiveStepExactly(s: State, e: Event)
    requires Exclusive(s) && Enabled(s, e)
    ensures Exclusive(Next(s, e)) <==> !LosesLock(s, e)
  {
    if LosesLock(s, e) {
      var c: nat :| Between(s, c);
      assert Between(Next(s, e), c);
    } else {
      forall c: nat | Between(Next(s, e), c)
        ensures Next(s, e).lock == Some(c)
      {
        if OfCall(e, c) {
          if !e.TryLock? { assert Between(s, c); }
        } else {
          assert Between(s, c);
          if e.Undo? { assert Between(s, e.call); }
        }
      }
    }
  }

  ghost predicate AlwaysExclusive(s: State, events: seq<Event>) {
    forall k :: 0 <= k <= |events| ==> Exclusive(After(s, events[..k]))
  }

  ghost predicate NeverLosesLock(s: State, events: seq<Event>) {
    forall k :: 0 <= k < |events| ==> !LosesLock(After(s, events[..k]), events[k])
  }

  lemma {:induction false} ExclusiveUpTo(s: State, events: seq<Event>, k: nat)
    requires Exclusive(s) && Legal(s, events) && NeverLosesLock(s, events) && k <= |events|
    ensures Exclusive(After(s, events[..k]))
  {
    if k == 0 {
      assert events[..0] == [];
    } else {
      ExclusiveUpTo(s, events, k - 1);
      AfterNext(s, events, k - 1);
      assert EnabledAt(s, events, k - 1);
      ExclusiveStepExactly(After(s, events[..k - 1]), events[k - 1]);
    }
  }

  /**
   * At most one call is between its puts, at every moment of a run, if and only if the lock never disappears while a
   * call is between its puts. Winners keep the lock, and its expiry after they won does no harm.
   */
  lemma ExclusiveExactly(s: State, events: seq<Event>)
    requires Exclusive(s) && Legal(s, events)
    ensures AlwaysExclusive(s, events) <==> NeverLosesLock(s, events)
  {
    if NeverLosesLock(s, events) {
      forall k | 0 <= k <= |events|
        ensures Exclusive(After(s, events[..k]))
      {
        ExclusiveUpTo(s, events, k);
      }
    } else {
      var k :| 0 <= k < |events| && LosesLock(After(s, events[..k]), events[k]);
      AfterNext(s, events, k);
      assert EnabledAt(s, events, k);
      if AlwaysExclusive(s, events) { ExclusiveStepExactly(After(s, events[..k]), events[k]); }
    }
  }

  /** Event `k` removes the lock item: an expiry, a release from outside, or the undoing of some call. */
  predicate RemovesLock(events: seq<Event>, k: nat)
    requires k < |events|
  {
    events[k].LockGone? || (events[k].Undo? && events[k].deleted)
  }

  /** Event `t` is the put with which the call took the lock. */
  predicate TakesLock(s: State, events: seq<Event>, c: nat, t: nat)
    requires t < |events|
  {
    events[t] == TryLock(c) && After(s, events[..t]).lock.None?
  }

  /** A call that is between its puts took the lock at some earlier event. */
  lemma {:induction false} TookLock(s: State, events: seq<Event>, c: nat, i: nat) returns (t: nat)
    requires Legal(s, events) && i <= |events| && PhaseOf(s, c) == Idle && Between(After(s, events[..i]), c)
    ensures t < i && TakesLock(s, events, c, t)
  {
    assert i > 0 by { assert events[..0] == []; }
    AfterNext(s, events, i - 1);
    assert EnabledAt(s, events, i - 1);
    if Between(After(s, events[..i - 1]), c) {
      t := TookLock(s, events, c, i - 1);
    } else {
      t := i - 1;
    }
  }

  lemma KeepsOwnLock(s: State, e: Event, c: nat)
    requires Enabled(s, e) && PhaseOf(s, c) != Idle
    ensures Next(s, e).lock == Some(c) <==> s.lock == Some(c) && !(e.LockGone? || (e.Undo? && e.deleted))
    ensures PhaseOf(Next(s, e), c) != Idle
  {
  }

  /** After taking the lock a call still has it exactly when no event has removed the lock since. */
  lemma {:induction false} HasLockExactly(s: State, events: seq<Event>, c: nat, t: nat, i: nat)
    requires Legal(s, events) && t < i <= |events| && TakesLock(s, events, c, t)
    ensures After(s, events[..i]).lock == Some(c) <==> forall k: nat :: t < k < i ==> !RemovesLock(events, k)
    ensures PhaseOf(After(s, events[..i]), c) != Idle
  {
    AfterNext(s, events, i - 1);
    assert EnabledAt(s, events, i - 1);
    if t == i - 1 {
    } else {
      HasLockExactly(s, events, c, t, i - 1);
      KeepsOwnLock(After(s, events[..i - 1]), events[i - 1], c);
      assert RemovesLock(events, i - 1) <==> events[i - 1].LockGone? || (events[i - 1].Undo? && events[i - 1].deleted);
    }
  }

  /**
   * A call that undoes its reservation deletes a lock that is not its own if and only if the lock item exists and was
   * removed at some moment since the call took it.
   */
  lemma ForeignReleaseExactly(s: State, events: seq<Event>, c: nat, i: nat) returns (t: nat)
    requires Legal(s, events) && i < |events| && PhaseOf(s, c) == Idle && events[i] == Undo(c, true)
    ensures t < i && TakesLock(s, events, c, t)
    ensures var lock := After(s, events[..i]).lock;
            lock.Some? && lock != Some(c) <==> lock.Some? && exists k: nat :: t < k < i && RemovesLock(events, k)
  {
    assert EnabledAt(s, events, i);
    t := TookLock(s, events, c, i);
    HasLockExactly(s, events, c, t, i);
  }

  lemma Extend(s: State, events: seq<Event>, e: Event)
    requires Legal(s, events) && Enabled(After(s, events), e)
    ensures Legal(s, events + [e]) && After(s, events + [e]) == Next(After(s, events), e)
  {
    var more := events + [e];
    assert more[..|events|] == events;
    forall i | 0 <= i < |more|
      ensures EnabledAt(s, more, i)
    {
      if i < |events| { assert more[..i] == events[..i] && EnabledAt(s, events, i); }
    }
  }

  /**
   * Both happen: the first call's lock expires, the second takes it, the record turns out to be live, and
   * the first call's unconditional release deletes the second's lock, so that a third call gets in beside the second.
   */
  lemma ReleaseDeletesForeignLock(live: Tenant, input: CheckoutInput, now: int) returns (events: seq<Event>)
    requires live.status == ActiveTenant
    ensures var s := State(None, Some(live), map[]);
            && Legal(s, events)
            && PhaseOf(After(s, events), 2) == Holding && PhaseOf(After(s, events), 3) == Holding
            && After(s, events).lock == Some(3)
  {
    var s := State(None, Some(live), map[]);
    events := [];
    Extend(s, events, TryLock(1));
    events := events + [TryLock(1)];
    Extend(s, events, LockGone);
    events := events + [LockGone];
    Extend(s, events, TryLock(2));
    events := events + [TryLock(2)];
    Extend(s, events, TryMeta(1, input, now));
    events := events + [TryMeta(1, input, now)];
    Extend(s, events, Undo(1, true));
    events := events + [Undo(1, true)];
    Extend(s, events, TryLock(3));
    events := events + [TryLock(3)];
  }
}
