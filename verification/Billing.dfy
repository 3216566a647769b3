/** The plan timeline of the billing service (services/billing-service/app/domain.py and repository.py). */
module Billing {
  import opened Results

  type Id = nat

  datatype Status = Active | Suspended | Cancelled

  /** A subscription row; dates are day numbers, and the last day of a subscription is inclusive. */
  datatype Sub = Sub(id: Id, tenant: Id, plan: Id, startsOn: int, endsOn: Option<int>, status: Status,
                     suspendedOn: Option<int>)

  // ---- which subscription a date is entitled to ----

  predicate Eligible(r: Sub, tenant: Id, on: int) {
    r.tenant == tenant && r.startsOn <= on && (r.endsOn.None? || r.endsOn.value >= on)
  }

  /** `max(eligible, key=starts_on, default=None)`, as an index into the listed rows. */
  function Entitlement(rows: seq<Sub>, tenant: Id, on: int): (c: Option<nat>)
    ensures c.Some? ==> c.value < |rows|
  {
    if rows == [] then None
    else
      var n := |rows| - 1;
      var best := Entitlement(rows[..n], tenant, on);
      if Eligible(rows[n], tenant, on) && (best.None? || rows[best.value].startsOn < rows[n].startsOn) then Some(n)
      else best
  }

  /** The first of the eligible rows that start latest. */
  ghost predicate FirstLatest(rows: seq<Sub>, tenant: Id, on: int, i: nat) {
    && i < |rows| && Eligible(rows[i], tenant, on)
    && forall j :: 0 <= j < |rows| && Eligible(rows[j], tenant, on) ==>
         rows[j].startsOn <= rows[i].startsOn && (j < i ==> rows[j].startsOn < rows[i].startsOn)
  }

  /** A row is entitled exactly when it is the first of those that start latest; none is, exactly when none is eligible. */
  lemma {:induction false} EntitlementIsFirstLatest(rows: seq<Sub>, tenant: Id, on: int, i: nat)
    ensures Entitlement(rows, tenant, on) == Some(i) <==> FirstLatest(rows, tenant, on, i)
    ensures Entitlement(rows, tenant, on) == None <==> forall j :: 0 <= j < |rows| ==> !Eligible(rows[j], tenant, on)
  {
    if rows == [] {
    } else {
      var front := rows[..|rows| - 1];
      EntitlementIsFirstLatest(front, tenant, on, i);
      var best := Entitlement(front, tenant, on);
      if best.Some? { EntitlementIsFirstLatest(front, tenant, on, best.value); }
    }
  }

  // ---- the change of plan ----

  /** What the loop of `change_plan` does to one row. */
  function Closed(r: Sub, tenant: Id, effective: int): Sub {
    if r.tenant == tenant && r.endsOn.None? && r.startsOn < effective then
      r.(endsOn := Some(effective - 1), status := if r.status == Cancelled then Cancelled else Active)
    else r
  }

  function ClosedAll(rows: seq<Sub>, tenant: Id, effective: int): (s: seq<Sub>)
    ensures |s| == |rows|
  {
    seq(|rows|, i requires 0 <= i < |rows| => Closed(rows[i], tenant, effective))
  }

  function NewSub(id: Id, tenant: Id, plan: Id, effective: int): Sub {
    Sub(id, tenant, plan, effective, None, Active, None)
  }

  /** The table after a change of plan. */
  function Changed(rows: seq<Sub>, id: Id, tenant: Id, plan: Id, effective: int): (s: seq<Sub>)
    ensures |s| == |rows| + 1
  {
    ClosedAll(rows, tenant, effective) + [NewSub(id, tenant, plan, effective)]
  }

  ghost predicate UniqueIds(rows: seq<Sub>) {
    forall i, j :: 0 <= i < j < |rows| ==> rows[i].id != rows[j].id
  }

  /** The constraints of the table: a primary key, and no subscription that ends before it starts. */
  ghost predicate WellFormed(rows: seq<Sub>) {
    UniqueIds(rows) && forall r :: r in rows ==> r.endsOn.None? || r.startsOn <= r.endsOn.value
  }

  predicate HasId(rows: seq<Sub>, id: Id) { exists i :: 0 <= i < |rows| && rows[i].id == id }

  lemma ChangedWellFormed(rows: seq<Sub>, id: Id, tenant: Id, plan: Id, effective: int)
    requires WellFormed(rows) && !HasId(rows, id)
    ensures WellFormed(Changed(rows, id, tenant, plan, effective))
  {
    var after := Changed(rows, id, tenant, plan, effective);
    assert forall i :: 0 <= i < |rows| ==> after[i] == Closed(rows[i], tenant, effective) && rows[i] in rows;
  }

  /** `WHERE tenant_id = ?`. */
  function OfTenant(rows: seq<Sub>, tenant: Id): (s: seq<Sub>)
    ensures forall r :: r in s <==> r in rows && r.tenant == tenant
  {
    if rows == [] then []
    else
      var n := |rows| - 1;
      assert rows == rows[..n] + [rows[n]];
      OfTenant(rows[..n], tenant) + if rows[n].tenant == tenant then [rows[n]] else []
  }

  /** Stable insertion by start date, and the sort it makes. */
  function InsertByStart(rows: seq<Sub>, r: Sub): seq<Sub> {
    if rows == [] || rows[|rows| - 1].startsOn <= r.startsOn then rows + [r]
    else InsertByStart(rows[..|rows| - 1], r) + [rows[|rows| - 1]]
  }

  function SortByStart(rows: seq<Sub>): seq<Sub> {
    if rows == [] then [] else InsertByStart(SortByStart(rows[..|rows| - 1]), rows[|rows| - 1])
  }

  ghost predicate SortedByStart(rows: seq<Sub>) {
    forall i, j :: 0 <= i < j < |rows| ==> rows[i].startsOn <= rows[j].startsOn
  }

  lemma {:induction false} InsertMembers(rows: seq<Sub>, r: Sub)
    ensures multiset(InsertByStart(rows, r)) == multiset(rows) + multiset{r}
  {
    if rows == [] || rows[|rows| - 1].startsOn <= r.startsOn {
    } else {
      InsertMembers(rows[..|rows| - 1], r);
      assert rows == rows[..|rows| - 1] + [rows[|rows| - 1]];
    }
  }

  lemma {:induction false} InsertAtMost(rows: seq<Sub>, r: Sub, last: int)
    requires r.startsOn <= last && forall i :: 0 <= i < |rows| ==> rows[i].startsOn <= last
    ensures forall i :: 0 <= i < |InsertByStart(rows, r)| ==> InsertByStart(rows, r)[i].startsOn <= last
  {
    if rows == [] || rows[|rows| - 1].startsOn <= r.startsOn {
    } else {
      InsertAtMost(rows[..|rows| - 1], r, last);
    }
  }

  lemma {:induction false} InsertSorted(rows: seq<Sub>, r: Sub)
    requires SortedByStart(rows)
    ensures SortedByStart(InsertByStart(rows, r))
  {
    if rows == [] || rows[|rows| - 1].startsOn <= r.startsOn {
    } else {
      InsertSorted(rows[..|rows| - 1], r);
      InsertAtMost(rows[..|rows| - 1], r, rows[|rows| - 1].startsOn);
    }
  }

  lemma {:induction false} SortByStartSorts(rows: seq<Sub>)
    ensures SortedByStart(SortByStart(rows)) && multiset(SortByStart(rows)) == multiset(rows)
  {
    if rows == [] {
    } else {
      var front, last := rows[..|rows| - 1], rows[|rows| - 1];
      SortByStartSorts(front);
      var sorted := SortByStart(front);
      InsertSorted(sorted, last);
      InsertMembers(sorted, last);
      assert SortByStart(rows) == InsertByStart(sorted, last);
      assert multiset(rows) == multiset(front) + multiset{last} by { assert rows == front + [last]; }
    }
  }

  /** The subscriptions table. */
  class Repository {
    var rows: seq<Sub>

    ghost predicate Valid()
      reads this
    {
      WellFormed(rows)
    }

    constructor (rows: seq<Sub>)
      requires WellFormed(rows)
      ensures Valid() && this.rows == rows
    {
      this.rows := rows;
    }

    method ListSubscriptions(tenant: Id) returns (s: seq<Sub>)
      ensures s == OfTenant(rows, tenant)
    {
      s := OfTenant(rows, tenant);
    }

    /** `UPDATE … WHERE id = ?`: every row with the id, and no other. */
    method UpdateSubscription(id: Id, endsOn: int, status: Status)
      modifies this
      ensures |rows| == |old(rows)|
      ensures forall i :: 0 <= i < |rows| ==>
                rows[i] == if old(rows)[i].id == id then old(rows)[i].(endsOn := Some(endsOn), status := status)
                           else old(rows)[i]
    {
      for i := 0 to |rows|
        invariant |rows| == |old(rows)|
        invariant forall j :: 0 <= j < |rows| ==>
                    rows[j] == if j < i && old(rows)[j].id == id then old(rows)[j].(endsOn := Some(endsOn), status := status)
                               else old(rows)[j]
      {
        if rows[i].id == id { rows := rows[i := rows[i].(endsOn := Some(endsOn), status := status)]; }
      }
    }

    /** A second row with the same primary key violates the constraint. */
    method InsertSubscription(r: Sub) returns (ok: bool)
      modifies this
      ensures ok == !HasId(old(rows), r.id)
      ensures rows == if ok then old(rows) + [r] else old(rows)
    {
      ok := !HasId(rows, r.id);
      if ok { rows := rows + [r]; }
    }

    /**
     * `change_plan` in its transaction: a repeated request leaves the table as it was; any other closes the open
     * subscriptions that started earlier, adds the new one, and returns the tenant's history by start date.
     */
    method ChangePlan(tenant: Id, plan: Id, effective: int, uuid5: (Id, Id, int) -> Id)
      returns (r: Result<(seq<Sub>, Sub), ()>)
      requires Valid()
      modifies this
      ensures Valid()
      ensures r.Err? <==> HasId(old(rows), uuid5(tenant, plan, effective))
      ensures r.Err? ==> rows == old(rows)
      ensures r.Ok? ==>
                var id := uuid5(tenant, plan, effective);
                && rows == Changed(old(rows), id, tenant, plan, effective)
                && SortedByStart(r.value.0) && multiset(r.value.0) == multiset(OfTenant(rows, tenant))
                && r.value.1 == NewSub(id, tenant, plan, effective) && r.value.1 in r.value.0
    {
      var before := rows;
      var subscriptions := ListSubscriptions(tenant);
      CloseOpen(subscriptions, tenant, effective);
      var id := uuid5(tenant, plan, effective);
      assert HasId(rows, id) <==> HasId(before, id) by { SameIds(before, tenant, effective, id); }
      var ok := InsertSubscription(NewSub(id, tenant, plan, effective));
      if !ok {
        rows := before;
        return Err(());
      }
      ChangedWellFormed(before, id, tenant, plan, effective);
      var listed := ListSubscriptions(tenant);
      var sorted := SortByStart(listed);
      SortByStartSorts(listed);
      assert rows[|rows| - 1] in rows;
      assert NewSub(id, tenant, plan, effective) in multiset(sorted);
      var created := First(sorted, id, NewSub(id, tenant, plan, effective), rows);
      return Ok((sorted, created));
    }

    /** The loop over the listed rows. */
    method CloseOpen(subscriptions: seq<Sub>, tenant: Id, effective: int)
      requires Valid() && subscriptions == OfTenant(rows, tenant)
      modifies this
      ensures rows == ClosedAll(old(rows), tenant, effective)
    {
      ghost var before := rows;
      for k := 0 to |subscriptions|
        invariant rows == ClosedThese(before, subscriptions[..k], tenant, effective)
      {
        var s := subscriptions[k];
        assert s in subscriptions;
        ghost var middle := rows;
        if s.endsOn.None? && s.startsOn < effective {
          UpdateSubscription(s.id, effective - 1, if s.status == Cancelled then s.status else Active);
        }
        ClosedNext(before, middle, rows, subscriptions, k, tenant, effective);
      }
      assert subscriptions[..|subscriptions|] == subscriptions;
      TheseAreAll(before, tenant, effective);
    }
  }

  /** The rows after those of the list have been closed. */
  ghost function ClosedThese(rows: seq<Sub>, subs: seq<Sub>, tenant: Id, effective: int): (s: seq<Sub>)
    ensures |s| == |rows|
  {
    seq(|rows|, i requires 0 <= i < |rows| =>
      if rows[i] in subs then Closed(rows[i], tenant, effective) else rows[i])
  }

  lemma ClosedNext(
    before: seq<Sub>, middle: seq<Sub>, after: seq<Sub>, subs: seq<Sub>, k: nat, tenant: Id, effective: int)
    requires UniqueIds(before) && k < |subs| && subs[k] in before && subs[k].tenant == tenant
    requires middle == ClosedThese(before, subs[..k], tenant, effective) && |after| == |middle|
    requires var s := subs[k];
             forall i :: 0 <= i < |after| ==>
               after[i] == if s.endsOn.None? && s.startsOn < effective && middle[i].id == s.id
                           then middle[i].(endsOn := Some(effective - 1),
                                           status := if s.status == Cancelled then s.status else Active)
                           else middle[i]
    ensures after == ClosedThese(before, subs[..k + 1], tenant, effective)
  {
    var s := subs[k];
    SameIdOnly(before, s);
    assert subs[..k + 1] == subs[..k] + [s];
    forall i | 0 <= i < |before|
      ensures after[i] == ClosedThese(before, subs[..k + 1], tenant, effective)[i]
    {
      assert before[i].id == s.id <==> before[i] == s;
      assert middle[i].id == before[i].id;
    }
  }

  lemma TheseAreAll(rows: seq<Sub>, tenant: Id, effective: int)
    ensures ClosedThese(rows, OfTenant(rows, tenant), tenant, effective) == ClosedAll(rows, tenant, effective)
  {
    forall i | 0 <= i < |rows|
      ensures ClosedThese(rows, OfTenant(rows, tenant), tenant, effective)[i] == Closed(rows[i], tenant, effective)
    {
      assert rows[i] in rows;
    }
  }

  lemma SameId(rows: seq<Sub>, i: nat, s: Sub)
    requires UniqueIds(rows) && i < |rows| && s in rows
    ensures rows[i].id == s.id <==> rows[i] == s
  {
    var j :| 0 <= j < |rows| && rows[j] == s;
  }

  lemma SameIdOnly(rows: seq<Sub>, s: Sub)
    requires UniqueIds(rows) && s in rows
    ensures forall i :: 0 <= i < |rows| ==> (rows[i].id == s.id <==> rows[i] == s)
  {
    forall i | 0 <= i < |rows|
      ensures rows[i].id == s.id <==> rows[i] == s
    {
      SameId(rows, i, s);
    }
  }

  lemma SameIds(rows: seq<Sub>, tenant: Id, effective: int, id: Id)
    ensures HasId(ClosedAll(rows, tenant, effective), id) <==> HasId(rows, id)
  {
    var closed := ClosedAll(rows, tenant, effective);
    assert forall i :: 0 <= i < |rows| ==> closed[i].id == rows[i].id;
  }

  /** `next(item for item in subscriptions if item.subscription_id == id)`. */
  method First(rows: seq<Sub>, id: Id, ghost wanted: Sub, ghost table: seq<Sub>) returns (r: Sub)
    requires UniqueIds(table) && wanted in multiset(rows) && wanted.id == id && wanted in table
    requires forall x :: x in multiset(rows) ==> x in table
    ensures r == wanted
  {
    assert wanted in rows;
    var i := 0;
    while rows[i].id != id
      invariant i < |rows| && wanted in rows[i..]
      decreases |rows| - i
    {
      assert rows[i..] == [rows[i]] + rows[i + 1..];
      i := i + 1;
    }
    assert rows[i] in multiset(rows);
    ghost var j :| 0 <= j < |table| && table[j] == rows[i];
    SameId(table, j, wanted);
    return rows[i];
  }

  // ---- what a change does to entitlements ----

  lemma ClosedEligible(r: Sub, tenant: Id, effective: int, on: int)
    ensures on < effective ==> (Eligible(Closed(r, tenant, effective), tenant, on) <==> Eligible(r, tenant, on))
    ensures on >= effective && r.startsOn >= effective ==> Closed(r, tenant, effective) == r
    ensures on >= effective && r.startsOn < effective && r.endsOn.None? ==>
              !Eligible(Closed(r, tenant, effective), tenant, on)
  {
  }

  lemma {:induction false} ClosedEarlier(rows: seq<Sub>, tenant: Id, effective: int, on: int)
    requires on < effective
    ensures Entitlement(ClosedAll(rows, tenant, effective), tenant, on) == Entitlement(rows, tenant, on)
  {
    if rows == [] {
    } else {
      var n := |rows| - 1;
      ClosedEarlier(rows[..n], tenant, effective, on);
      assert ClosedAll(rows, tenant, effective)[..n] == ClosedAll(rows[..n], tenant, effective);
      ClosedEligible(rows[n], tenant, effective, on);
    }
  }

  /** Before the effective date nothing is chosen differently. */
  lemma EarlierDatesKeep(rows: seq<Sub>, id: Id, tenant: Id, plan: Id, effective: int, on: int)
    requires on < effective
    ensures Entitlement(Changed(rows, id, tenant, plan, effective), tenant, on) == Entitlement(rows, tenant, on)
  {
    ClosedEarlier(rows, tenant, effective, on);
    var after := Changed(rows, id, tenant, plan, effective);
    assert after[..|rows|] == ClosedAll(rows, tenant, effective);
  }

  /** A row that starts on or after the effective date and covers the date `on`. */
  ghost predicate StartsThere(rows: seq<Sub>, tenant: Id, effective: int, on: int) {
    exists j :: 0 <= j < |rows| && rows[j].startsOn >= effective && Eligible(rows[j], tenant, on)
  }

  /**
   * From the effective date on, the new subscription is chosen exactly when no listed one that covers the date starts
   * on or after the effective date; otherwise the choice is the same as before.
   */
  lemma LaterDatesSwitch(rows: seq<Sub>, id: Id, tenant: Id, plan: Id, effective: int, on: int)
    requires on >= effective
    ensures Entitlement(Changed(rows, id, tenant, plan, effective), tenant, on) == Some(|rows|) <==>
            !StartsThere(rows, tenant, effective, on)
    ensures StartsThere(rows, tenant, effective, on) ==>
              Entitlement(Changed(rows, id, tenant, plan, effective), tenant, on) == Entitlement(rows, tenant, on)
  {
    var after := Changed(rows, id, tenant, plan, effective);
    assert forall j :: 0 <= j < |rows| ==> after[j] == Closed(rows[j], tenant, effective);
    EntitlementIsFirstLatest(after, tenant, on, |rows|);
    if StartsThere(rows, tenant, effective, on) {
      var j :| 0 <= j < |rows| && rows[j].startsOn >= effective && Eligible(rows[j], tenant, on);
      assert after[j] == rows[j];
      EntitlementIsFirstLatest(rows, tenant, on, 0);
      var i := Entitlement(rows, tenant, on).value;
      EntitlementIsFirstLatest(rows, tenant, on, i);
      EntitlementIsFirstLatest(after, tenant, on, i);
    } else {
      assert forall k :: 0 <= k < |rows| && Eligible(after[k], tenant, on) ==> after[k].startsOn < effective;
    }
  }

  lemma OtherTenantsKeep(rows: seq<Sub>, id: Id, tenant: Id, plan: Id, effective: int, other: Id, on: int)
    requires other != tenant
    ensures Entitlement(Changed(rows, id, tenant, plan, effective), other, on) == Entitlement(rows, other, on)
  {
    var after := Changed(rows, id, tenant, plan, effective);
    assert after[..|rows|] == ClosedAll(rows, tenant, effective);
    OthersClosed(rows, tenant, effective, other, on);
  }

  lemma {:induction false} OthersClosed(rows: seq<Sub>, tenant: Id, effective: int, other: Id, on: int)
    requires other != tenant
    ensures Entitlement(ClosedAll(rows, tenant, effective), other, on) == Entitlement(rows, other, on)
  {
    if rows == [] {
    } else {
      var n := |rows| - 1;
      OthersClosed(rows[..n], tenant, effective, other, on);
      assert ClosedAll(rows, tenant, effective)[..n] == ClosedAll(rows[..n], tenant, effective);
    }
  }

  // ---- runs of changes ----

  datatype Change = Change(id: Id, plan: Id, effective: int)

  function Applied(base: seq<Sub>, tenant: Id, cs: seq<Change>): (rows: seq<Sub>)
    ensures |rows| == |base| + |cs|
  {
    if cs == [] then base
    else
      var c := cs[|cs| - 1];
      Changed(Applied(base, tenant, cs[..|cs| - 1]), c.id, tenant, c.plan, c.effective)
  }

  /** The timeline that the requests ask for: the first request among those with the latest effective date not after `on`. */
  function Asked(cs: seq<Change>, on: int): (k: Option<nat>)
    ensures k.Some? ==> k.value < |cs| && cs[k.value].effective <= on
  {
    if cs == [] then None
    else
      var n := |cs| - 1;
      var k := Asked(cs[..n], on);
      if cs[n].effective <= on && (k.None? || cs[k.value].effective < cs[n].effective) then Some(n) else k
  }

  ghost predicate NoRows(base: seq<Sub>, tenant: Id) { forall r :: r in base ==> r.tenant != tenant }

  lemma {:induction false} AppliedStart(base: seq<Sub>, tenant: Id, cs: seq<Change>, k: nat)
    requires k < |cs|
    ensures var r := Applied(base, tenant, cs)[|base| + k];
            r.id == cs[k].id && r.tenant == tenant && r.plan == cs[k].plan && r.startsOn == cs[k].effective
  {
    if k == |cs| - 1 {
    } else {
      AppliedStart(base, tenant, cs[..|cs| - 1], k);
    }
  }

  /** The first of the requests with an effective date after the start of the row. */
  ghost predicate FirstLater(r: Sub, cs: seq<Change>, k: nat)
    requires k < |cs|
  {
    r.startsOn < cs[k].effective && forall j :: 0 <= j < k ==> cs[j].effective <= r.startsOn
  }

  /** A row is as it was, or a request with a later date closed it the day before: cancelled if it was, active otherwise. */
  ghost predicate KeptOrClosed(before: Sub, after: Sub, tenant: Id, cs: seq<Change>) {
    || after == before
    || (before.tenant == tenant && before.endsOn.None? &&
        exists k :: 0 <= k < |cs| && FirstLater(before, cs, k) && ClosedBy(before, after, cs[k].effective))
  }

  ghost predicate ClosedBy(before: Sub, after: Sub, effective: int) {
    && after.id == before.id && after.tenant == before.tenant && after.plan == before.plan
    && after.startsOn == before.startsOn && after.suspendedOn == before.suspendedOn
    && after.endsOn == Some(effective - 1)
    && (before.status == Cancelled ==> after.status == Cancelled)
    && (before.status == Active || before.status == Suspended ==> after.status == Active)
  }

  /** The row is never touched: another tenant's, ended, or not before any of the dates. */
  ghost predicate Untouched(r: Sub, tenant: Id, cs: seq<Change>) {
    r.tenant != tenant || r.endsOn.Some? || forall k :: 0 <= k < |cs| ==> cs[k].effective <= r.startsOn
  }

  lemma KeptNext(r: Sub, before: Sub, tenant: Id, cs: seq<Change>)
    requires cs != [] && KeptOrClosed(r, before, tenant, cs[..|cs| - 1])
    requires before == r <==> Untouched(r, tenant, cs[..|cs| - 1])
    ensures var after := Closed(before, tenant, cs[|cs| - 1].effective);
            KeptOrClosed(r, after, tenant, cs) && (after == r <==> Untouched(r, tenant, cs))
  {
    var n := |cs| - 1;
    if before != r {
      var k :| 0 <= k < n && FirstLater(r, cs[..n], k) && ClosedBy(r, before, cs[..n][k].effective);
      assert FirstLater(r, cs, k);
    } else if r.tenant == tenant && r.endsOn.None? && r.startsOn < cs[n].effective {
      assert FirstLater(r, cs, n);
    }
  }

  /**
   * Over any run a listed row is kept, or closed by one request: the first of those with a later effective date. So
   * no ended or cancelled subscription is revived, and a suspended one becomes active by being closed, only then.
   */
  lemma {:induction false} HistoryKept(base: seq<Sub>, tenant: Id, cs: seq<Change>, i: nat)
    requires i < |base|
    ensures var after := Applied(base, tenant, cs)[i];
            KeptOrClosed(base[i], after, tenant, cs) && (after == base[i] <==> Untouched(base[i], tenant, cs))
  {
    if cs != [] {
      HistoryKept(base, tenant, cs[..|cs| - 1], i);
      KeptNext(base[i], Applied(base, tenant, cs[..|cs| - 1])[i], tenant, cs);
    }
  }

  lemma NothingEligible(base: seq<Sub>, tenant: Id, on: int)
    requires NoRows(base, tenant)
    ensures Entitlement(base, tenant, on) == None
  {
    EntitlementIsFirstLatest(base, tenant, on, 0);
    assert forall j :: 0 <= j < |base| ==> base[j] in base;
  }

  /** The row that a request added. */
  function RowOf(base: seq<Sub>, k: Option<nat>): Option<nat> { if k.None? then None else Some(|base| + k.value) }

  /**
   * Refinement: whatever the order of the effective dates, after any run of changes for a tenant without
   * subscriptions every date is entitled to exactly the subscription that the requests ask for.
   */
  lemma {:induction false} TimelineRefines(base: seq<Sub>, tenant: Id, cs: seq<Change>, on: int)
    requires NoRows(base, tenant)
    ensures Entitlement(Applied(base, tenant, cs), tenant, on) == RowOf(base, Asked(cs, on))
  {
    if cs == [] {
      NothingEligible(base, tenant, on);
    } else {
      var front, c := cs[..|cs| - 1], cs[|cs| - 1];
      TimelineRefines(base, tenant, front, on);
      var rows := Applied(base, tenant, front);
      if c.effective > on {
        EarlierDatesKeep(rows, c.id, tenant, c.plan, c.effective, on);
      } else {
        LaterDatesSwitch(rows, c.id, tenant, c.plan, c.effective, on);
        CoveredByLater(base, tenant, front, c.effective, on);
      }
    }
  }

  lemma CoveredByLater(base: seq<Sub>, tenant: Id, cs: seq<Change>, effective: int, on: int)
    requires Entitlement(Applied(base, tenant, cs), tenant, on) == RowOf(base, Asked(cs, on))
    ensures StartsThere(Applied(base, tenant, cs), tenant, effective, on) <==>
            Asked(cs, on).Some? && cs[Asked(cs, on).value].effective >= effective
  {
    var rows, k := Applied(base, tenant, cs), Asked(cs, on);
    if k.None? {
      EntitlementIsFirstLatest(rows, tenant, on, 0);
    } else {
      EntitlementIsFirstLatest(rows, tenant, on, |base| + k.value);
      AppliedStart(base, tenant, cs, k.value);
    }
  }

  // ---- runs with increasing dates ----

  ghost predicate Increasing(cs: seq<Change>) {
    forall i, j :: 0 <= i < j < |cs| ==> cs[i].effective < cs[j].effective
  }

  /** With increasing dates each subscription ends the day before the next one starts, and the last is open. */
  lemma {:induction false} PeriodsFollow(base: seq<Sub>, tenant: Id, cs: seq<Change>, k: nat)
    requires NoRows(base, tenant) && Increasing(cs) && k < |cs|
    ensures Applied(base, tenant, cs)[|base| + k] ==
            NewSub(cs[k].id, tenant, cs[k].plan, cs[k].effective).(
              endsOn := if k == |cs| - 1 then None else Some(cs[k + 1].effective - 1))
  {
    if k == |cs| - 1 {
    } else {
      PeriodsFollow(base, tenant, cs[..|cs| - 1], k);
    }
  }

  lemma {:induction false} BaseKept(base: seq<Sub>, tenant: Id, cs: seq<Change>)
    requires NoRows(base, tenant)
    ensures Applied(base, tenant, cs)[..|base|] == base
  {
    if cs == [] {
    } else {
      BaseKept(base, tenant, cs[..|cs| - 1]);
      var rows := Applied(base, tenant, cs[..|cs| - 1]);
      forall i | 0 <= i < |base|
        ensures Applied(base, tenant, cs)[i] == base[i]
      {
        assert rows[i] == rows[..|base|][i] == base[i] && base[i] in base;
      }
    }
  }

  /** Disjoint periods: at most one subscription covers a date; and exactly one, the last, is open. */
  lemma DisjointPeriods(base: seq<Sub>, tenant: Id, cs: seq<Change>, i: nat, j: nat, on: int)
    requires NoRows(base, tenant) && Increasing(cs)
    requires i < |base| + |cs| && j < |base| + |cs|
    ensures var rows := Applied(base, tenant, cs);
            && (Eligible(rows[i], tenant, on) && Eligible(rows[j], tenant, on) ==> i == j)
            && (rows[i].tenant == tenant && rows[i].endsOn.None? <==> |cs| > 0 && i == |rows| - 1)
  {
    var rows := Applied(base, tenant, cs);
    BaseKept(base, tenant, cs);
    if i < |base| { assert rows[i] == rows[..|base|][i] == base[i] && base[i] in base; }
    if j < |base| { assert rows[j] == rows[..|base|][j] == base[j] && base[j] in base; }
    if i >= |base| { PeriodsFollow(base, tenant, cs, i - |base|); }
    if j >= |base| { PeriodsFollow(base, tenant, cs, j - |base|); }
  }

  // ---- runs with dates in any order ----

  /** A row is open after the run exactly when no later change is effective after its start. */
  lemma {:induction false} OpenExactly(base: seq<Sub>, tenant: Id, cs: seq<Change>, k: nat)
    requires k < |cs|
    ensures Applied(base, tenant, cs)[|base| + k].endsOn.None? <==>
            forall j :: k < j < |cs| ==> cs[j].effective <= cs[k].effective
  {
    var n := |cs| - 1;
    if k == n {
    } else {
      OpenExactly(base, tenant, cs[..n], k);
      AppliedStart(base, tenant, cs[..n], k);
      assert forall j :: k < j < n ==> cs[..n][j] == cs[j];
    }
  }

  lemma {:induction false} LatestOf(cs: seq<Change>, n: nat) returns (m: nat)
    requires 0 < n <= |cs|
    ensures m < n && forall j :: 0 <= j < n ==> cs[j].effective <= cs[m].effective
  {
    if n == 1 {
      m := 0;
    } else {
      m := LatestOf(cs, n - 1);
      if cs[m].effective < cs[n - 1].effective { m := n - 1; }
    }
  }

  ghost predicate OnlyLastOpen(rows: seq<Sub>, tenant: Id) {
    forall i :: 0 <= i < |rows| && rows[i].tenant == tenant ==> (rows[i].endsOn.None? <==> i == |rows| - 1)
  }

  lemma BaseIsForeign(base: seq<Sub>, tenant: Id, cs: seq<Change>, i: nat)
    requires NoRows(base, tenant) && i < |base|
    ensures Applied(base, tenant, cs)[i].tenant != tenant
  {
    BaseKept(base, tenant, cs);
    assert Applied(base, tenant, cs)[i] == Applied(base, tenant, cs)[..|base|][i] == base[i] && base[i] in base;
  }

  /** When some date is not before the last one, another subscription than the last is open. */
  lemma AnotherOpen(base: seq<Sub>, tenant: Id, cs: seq<Change>, j: nat) returns (m: nat)
    requires j < |cs| - 1 && cs[j].effective >= cs[|cs| - 1].effective
    ensures m < |cs| - 1 && Applied(base, tenant, cs)[|base| + m].endsOn.None?
    ensures Applied(base, tenant, cs)[|base| + m].tenant == tenant
  {
    m := LatestOf(cs, |cs| - 1);
    OpenExactly(base, tenant, cs, m);
    AppliedStart(base, tenant, cs, m);
  }

  /** Exactly the last subscription is open if and only if its date is later than every date asked for before. */
  lemma OneOpenExactly(base: seq<Sub>, tenant: Id, cs: seq<Change>)
    requires NoRows(base, tenant) && cs != []
    ensures OnlyLastOpen(Applied(base, tenant, cs), tenant) <==>
            forall j :: 0 <= j < |cs| - 1 ==> cs[j].effective < cs[|cs| - 1].effective
  {
    var rows, n := Applied(base, tenant, cs), |cs| - 1;
    if j :| 0 <= j < n && cs[j].effective >= cs[n].effective {
      var m := AnotherOpen(base, tenant, cs, j);
    } else {
      forall i | 0 <= i < |rows| && rows[i].tenant == tenant
        ensures rows[i].endsOn.None? <==> i == |rows| - 1
      {
        if i < |base| { BaseIsForeign(base, tenant, cs, i); } else { OpenExactly(base, tenant, cs, i - |base|); }
      }
    }
  }

  /** Two rows of the tenant that both cover the first day of one of them. */
  ghost predicate MeetAtStart(rows: seq<Sub>, tenant: Id, i: nat, j: nat) {
    && i < |rows| && j < |rows| && i != j
    && Eligible(rows[i], tenant, rows[i].startsOn) && Eligible(rows[j], tenant, rows[i].startsOn)
  }

  /** Once two rows meet, some two rows meet after every later change. */
  lemma MeetingPersists(rows: seq<Sub>, c: Change, tenant: Id, i: nat, j: nat) returns (k: nat)
    requires MeetAtStart(rows, tenant, i, j)
    ensures MeetAtStart(Changed(rows, c.id, tenant, c.plan, c.effective), tenant, i, k)
  {
    var after := Changed(rows, c.id, tenant, c.plan, c.effective);
    assert after[i] == Closed(rows[i], tenant, c.effective) && after[j] == Closed(rows[j], tenant, c.effective);
    k := if rows[i].startsOn < c.effective then j else |rows|;
  }

  /** Every row covers its own first day, whatever happened to it. */
  lemma {:induction false} CoversOwnStart(base: seq<Sub>, tenant: Id, cs: seq<Change>, k: nat)
    requires k < |cs|
    ensures Eligible(Applied(base, tenant, cs)[|base| + k], tenant, cs[k].effective)
  {
    AppliedStart(base, tenant, cs, k);
    if k == |cs| - 1 {
    } else {
      CoversOwnStart(base, tenant, cs[..|cs| - 1], k);
      AppliedStart(base, tenant, cs[..|cs| - 1], k);
    }
  }

  /** A change that is not later than an earlier one makes two rows meet. */
  lemma MeetingMade(base: seq<Sub>, tenant: Id, cs: seq<Change>, i: nat)
    requires cs != [] && i < |cs| - 1 && cs[i].effective >= cs[|cs| - 1].effective
    ensures MeetAtStart(Applied(base, tenant, cs), tenant, |base| + i, |base| + |cs| - 1)
  {
    AppliedStart(base, tenant, cs, i);
    CoversOwnStart(base, tenant, cs, i);
  }

  lemma {:induction false} MeetingOfUnordered(base: seq<Sub>, tenant: Id, cs: seq<Change>, i: nat, j: nat)
    returns (a: nat, b: nat)
    requires i < j < |cs| && cs[i].effective >= cs[j].effective
    ensures MeetAtStart(Applied(base, tenant, cs), tenant, a, b)
  {
    var n := |cs| - 1;
    if j == n {
      MeetingMade(base, tenant, cs, i);
      a, b := |base| + i, |base| + n;
    } else {
      a, b := MeetingOfUnordered(base, tenant, cs[..n], i, j);
      b := MeetingPersists(Applied(base, tenant, cs[..n]), cs[n], tenant, a, b);
    }
  }

  /** No date is covered by two subscriptions of the tenant. */
  ghost predicate Disjoint(rows: seq<Sub>, tenant: Id) {
    forall i, j, on :: 0 <= i < |rows| && 0 <= j < |rows| && Eligible(rows[i], tenant, on) && Eligible(rows[j], tenant, on)
      ==> i == j
  }

  /** Subscriptions never overlap if and only if every change is effective later than all changes before it. */
  lemma DisjointExactly(base: seq<Sub>, tenant: Id, cs: seq<Change>)
    requires NoRows(base, tenant)
    ensures Disjoint(Applied(base, tenant, cs), tenant) <==> Increasing(cs)
  {
    var rows := Applied(base, tenant, cs);
    if Increasing(cs) {
      forall i, j, on | 0 <= i < |rows| && 0 <= j < |rows| && Eligible(rows[i], tenant, on) && Eligible(rows[j], tenant, on)
        ensures i == j
      {
        DisjointPeriods(base, tenant, cs, i, j, on);
      }
    } else {
      var i, j :| 0 <= i < j < |cs| && cs[i].effective >= cs[j].effective;
      var a, b := MeetingOfUnordered(base, tenant, cs, i, j);
      assert Eligible(rows[a], tenant, rows[a].startsOn);
    }
  }

  /** A backdated change leaves two open subscriptions; entitlements still follow the requests. */
  lemma BackdatedLeavesTwoOpen(tenant: Id)
    ensures var rows := Applied([], tenant, [Change(1, 7, 100), Change(2, 8, 50)]);
            |rows| == 2 && rows[0].endsOn.None? && rows[1].endsOn.None?
  {
    var cs := [Change(1, 7, 100), Change(2, 8, 50)];
    assert cs[..1] == [Change(1, 7, 100)];
    assert Applied([], tenant, cs[..1]) == Changed([], 1, tenant, 7, 100) by { assert cs[..1][..0] == []; }
  }
}
