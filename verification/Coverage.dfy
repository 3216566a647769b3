/** Grading a scan against the route inventory (security/dast/harness/dast_coverage.py). */
module Coverage {
  import opened Digits
  import opened Results
  import opened Texts
  import Routing

  datatype Route = Route(verb: string, path: string, service: string, source: string) {
    function Key(): string { verb + " " + path }
  }

  datatype Request = Request(verb: string, path: string, status: Option<int>, probe: Option<string>, authenticated: bool)

  const SWEEP := "DAST-ANONYMOUS-ROUTE-SWEEP"

  /** `path.strip("/").split("/")`. */
  function PathParts(path: string): seq<string> { SplitOn(Routing.StripSlash(path), '/') }

  predicate PathMatches(declared: string, requested: string) {
    var d, r := PathParts(declared), PathParts(requested);
    |d| == |r| && forall i :: 0 <= i < |d| ==> d[i] == "{}" || d[i] == r[i]
  }

  /** `matches`. */
  predicate Matches(route: Route, verb: string, path: string) { route.verb == verb && PathMatches(route.path, path) }

  /** `path.count("{}")`: occurrences that do not overlap. */
  function Wildcards(path: string): nat {
    if |path| < 2 then 0
    else if path[0] == '{' && path[1] == '}' then 1 + Wildcards(path[2..])
    else Wildcards(path[1..])
  }

  /** Fewer wildcards first, then text order. */
  predicate Closer(p: string, q: string) { Wildcards(p) < Wildcards(q) || (Wildcards(p) == Wildcards(q) && LexLess(p, q)) }

  /** `best_match`: the first of the matching routes with the smallest key, among the first `n`. */
  function BestAmong(routes: seq<Route>, verb: string, path: string, n: nat): (b: Option<nat>)
    requires n <= |routes|
    ensures b.Some? ==> b.value < n
  {
    if n == 0 then None
    else
      var best := BestAmong(routes, verb, path, n - 1);
      if Matches(routes[n - 1], verb, path) && (best.None? || Closer(routes[n - 1].path, routes[best.value].path)) then
        Some(n - 1)
      else best
  }

  function BestMatch(routes: seq<Route>, verb: string, path: string): (b: Option<nat>)
    ensures b.Some? ==> b.value < |routes|
  {
    BestAmong(routes, verb, path, |routes|)
  }

  lemma CloserTotal(p: string, q: string)
    ensures Closer(p, q) || Closer(q, p) || p == q
    ensures !(Closer(p, q) && Closer(q, p))
  {
    LexTotal(p, q);
  }

  lemma CloserTransitive(p: string, q: string, r: string)
    requires !Closer(q, p) && !Closer(r, q)
    ensures !Closer(r, p)
  {
    CloserTotal(p, q);
    CloserTotal(q, r);
    CloserTotal(p, r);
    if LexLess(p, q) && LexLess(q, r) { LexTransitive(p, q, r); }
    if LexLess(r, p) && LexLess(p, q) { LexTransitive(r, p, q); }
  }

  /** The chosen route matches, and no route that matches is closer; none is chosen only when none matches. */
  lemma {:induction false} BestIsClosest(routes: seq<Route>, verb: string, path: string, n: nat)
    requires n <= |routes|
    ensures var b := BestAmong(routes, verb, path, n);
            if b.Some? then
              && Matches(routes[b.value], verb, path)
              && forall j :: 0 <= j < n && Matches(routes[j], verb, path) ==> !Closer(routes[j].path, routes[b.value].path)
            else forall j :: 0 <= j < n ==> !Matches(routes[j], verb, path)
  {
    if n == 0 {
    } else {
      BestIsClosest(routes, verb, path, n - 1);
      var before, now := BestAmong(routes, verb, path, n - 1), BestAmong(routes, verb, path, n);
      if now.Some? {
        CloserTotal(routes[now.value].path, routes[now.value].path);
        if before.Some? && now != before {
          CloserTotal(routes[now.value].path, routes[before.value].path);
          forall j | 0 <= j < n - 1 && Matches(routes[j], verb, path)
            ensures !Closer(routes[j].path, routes[now.value].path)
          {
            CloserTransitive(routes[now.value].path, routes[before.value].path, routes[j].path);
          }
        }
      }
    }
  }

  // ---- paths by their segments ----

  /** A part of a path: neither empty nor with a slash in it. */
  ghost predicate IsSegment(s: string) { s != "" && '/' !in s }

  ghost predicate AreSegments(ss: seq<string>) { ss != [] && forall s :: s in ss ==> IsSegment(s) }

  lemma {:induction false} JoinEnds(ss: seq<string>)
    requires AreSegments(ss)
    ensures var j := Join(ss, '/'); j != "" && j[0] != '/' && j[|j| - 1] != '/'
  {
    assert ss[0] in ss;
    if |ss| > 1 {
      assert forall s :: s in ss[1..] ==> s in ss;
      JoinEnds(ss[1..]);
    }
  }

  lemma PartsOfPath(ss: seq<string>)
    requires AreSegments(ss)
    ensures PathParts("/" + Join(ss, '/')) == ss
  {
    JoinEnds(ss);
    Routing.StripTrims(Join(ss, '/'));
    SplitOfJoin(ss, '/');
  }

  /**
   * A route whose path is declared by the segments `ds` matches a request for the segments `rs` exactly when the
   * method is the route's, there are as many segments, and each is the declared one or stands for a placeholder.
   */
  lemma MatchesExactly(route: Route, ds: seq<string>, verb: string, rs: seq<string>)
    requires AreSegments(ds) && AreSegments(rs) && route.path == "/" + Join(ds, '/')
    ensures Matches(route, verb, "/" + Join(rs, '/')) <==>
            verb == route.verb && |rs| == |ds| && forall i :: 0 <= i < |ds| ==> ds[i] != rs[i] ==> ds[i] == "{}"
  {
    PartsOfPath(ds);
    PartsOfPath(rs);
  }

  lemma {:induction false} PlainText(a: string, b: string)
    requires '{' !in a
    ensures Wildcards(a + b) == Wildcards(b)
  {
    if a == "" {
      assert a + b == b;
    } else {
      assert (a + b)[1..] == a[1..] + b && a[0] in a;
      PlainText(a[1..], b);
      if |a + b| < 2 { assert b == ""; }
    }
  }

  lemma OneWildcard(b: string)
    ensures Wildcards("{}" + b) == 1 + Wildcards(b)
  {
    assert ("{}" + b)[2..] == b;
  }

  /** A declared segment is a placeholder or has no brace. */
  ghost predicate IsDeclared(s: string) { IsSegment(s) && (s == "{}" || '{' !in s) }

  /** The number of placeholders among the segments. */
  function Holes(ds: seq<string>): nat {
    if ds == [] then 0 else (if ds[0] == "{}" then 1 else 0) + Holes(ds[1..])
  }

  lemma SegmentWildcards(s: string, rest: string)
    requires IsDeclared(s)
    ensures Wildcards(s + rest) == (if s == "{}" then 1 else 0) + Wildcards(rest)
  {
    if s == "{}" { OneWildcard(rest); } else { PlainText(s, rest); }
  }

  lemma {:induction false} JoinWildcards(ds: seq<string>)
    requires ds != [] && forall d :: d in ds ==> IsDeclared(d)
    ensures Wildcards(Join(ds, '/')) == Holes(ds)
  {
    assert ds[0] in ds;
    if |ds| == 1 {
      SegmentWildcards(ds[0], "");
      assert ds[0] + "" == ds[0] && ds[1..] == [];
    } else {
      assert forall d :: d in ds[1..] ==> d in ds;
      JoinWildcards(ds[1..]);
      SegmentWildcards(ds[0], ['/'] + Join(ds[1..], '/'));
      PlainText(['/'], Join(ds[1..], '/'));
    }
  }

  /** Of two declared paths the one with fewer placeholders is closer, and of two with as many the first as text. */
  lemma CloserByHoles(p: seq<string>, q: seq<string>)
    requires p != [] && q != [] && forall d :: d in p || d in q ==> IsDeclared(d)
    ensures Closer("/" + Join(p, '/'), "/" + Join(q, '/')) <==>
            Holes(p) < Holes(q) || (Holes(p) == Holes(q) && LexLess(Join(p, '/'), Join(q, '/')))
  {
    JoinWildcards(p);
    JoinWildcards(q);
    PlainText("/", Join(p, '/'));
    PlainText("/", Join(q, '/'));
    LexAppend("/", Join(p, '/'), "/", Join(q, '/'));
    Irreflexive("/");
  }

  // ---- what the requests cover ----

  /** `delivered`: the handler itself answered. */
  predicate Delivered(r: Request) {
    r.status.None? || (r.status.value != 429 && !(300 <= r.status.value < 400) && r.status.value < 500)
  }

  /** The request is credited to every entry with the method and path of the route it landed on. */
  predicate Lands(routes: seq<Route>, r: Request, i: nat)
    requires i < |routes|
  {
    var b := BestMatch(routes, r.verb, r.path);
    Delivered(r) && b.Some? && routes[b.value].Key() == routes[i].Key()
  }

  predicate Written(r: Request) { r.probe.Some? && r.probe.value != SWEEP && r.probe.value != "" }

  predicate IsReached(routes: seq<Route>, exercised: seq<Request>, i: nat)
    requires i < |routes|
  {
    exists r :: r in exercised && Lands(routes, r, i)
  }

  predicate IsAttacked(routes: seq<Route>, exercised: seq<Request>, i: nat)
    requires i < |routes|
  {
    exists r :: r in exercised && Lands(routes, r, i) && Written(r)
  }

  predicate IsAuthenticated(routes: seq<Route>, exercised: seq<Request>, i: nat)
    requires i < |routes|
  {
    exists r :: r in exercised && Lands(routes, r, i) && r.authenticated
  }

  datatype Grade = Grade(reached: seq<Route>, attacked: seq<Route>, authenticated: seq<Route>, missed: seq<Route>)

  /** The routes that are flagged, in the order of the inventory. */
  function Pick(routes: seq<Route>, flags: seq<bool>): seq<Route>
    requires |routes| == |flags|
  {
    if routes == [] then []
    else Pick(routes[..|routes| - 1], flags[..|routes| - 1]) + if flags[|routes| - 1] then [routes[|routes| - 1]] else []
  }

  function Verdicts(n: nat, p: nat --> bool): (flags: seq<bool>)
    requires forall i: nat :: i < n ==> p.requires(i)
    ensures |flags| == n && forall i :: 0 <= i < n ==> flags[i] == p(i)
  {
    seq(n, i requires 0 <= i < n => p(i))
  }

  function Reached(routes: seq<Route>, exercised: seq<Request>): seq<bool> {
    Verdicts(|routes|, (i: nat) requires i < |routes| => IsReached(routes, exercised, i))
  }

  function Attacked(routes: seq<Route>, exercised: seq<Request>): seq<bool> {
    Verdicts(|routes|, (i: nat) requires i < |routes| => IsAttacked(routes, exercised, i))
  }

  function Authenticated(routes: seq<Route>, exercised: seq<Request>): seq<bool> {
    Verdicts(|routes|, (i: nat) requires i < |routes| => IsAuthenticated(routes, exercised, i))
  }

  function Negated(flags: seq<bool>): (r: seq<bool>)
    ensures |r| == |flags| && forall i :: 0 <= i < |r| ==> r[i] == !flags[i]
  {
    seq(|flags|, i requires 0 <= i < |flags| => !flags[i])
  }

  function Graded(routes: seq<Route>, exercised: seq<Request>): Grade {
    var reached := Reached(routes, exercised);
    Grade(Pick(routes, reached), Pick(routes, Attacked(routes, exercised)), Pick(routes, Authenticated(routes, exercised)),
          Pick(routes, Negated(reached)))
  }

  /** The grade of the first `n` entries, given what is known of each. */
  ghost function GradedTo(routes: seq<Route>, reached: seq<bool>, attacked: seq<bool>, authenticated: seq<bool>,
                          n: nat): Grade
    requires |routes| == |reached| == |attacked| == |authenticated| && n <= |routes|
  {
    Grade(Pick(routes[..n], reached[..n]), Pick(routes[..n], attacked[..n]), Pick(routes[..n], authenticated[..n]),
          Pick(routes[..n], Negated(reached)[..n]))
  }

  lemma GradedNext(routes: seq<Route>, reached: seq<bool>, attacked: seq<bool>, authenticated: seq<bool>, i: nat)
    requires |routes| == |reached| == |attacked| == |authenticated| && i < |routes|
    ensures GradedTo(routes, reached, attacked, authenticated, i + 1) ==
            var g := GradedTo(routes, reached, attacked, authenticated, i);
            Grade(g.reached + if reached[i] then [routes[i]] else [], g.attacked + if attacked[i] then [routes[i]] else [],
                  g.authenticated + if authenticated[i] then [routes[i]] else [],
                  g.missed + if !reached[i] then [routes[i]] else [])
  {
    PickNext(routes, reached, i);
    PickNext(routes, attacked, i);
    PickNext(routes, authenticated, i);
    PickNext(routes, Negated(reached), i);
  }

  lemma PickNext(routes: seq<Route>, flags: seq<bool>, i: nat)
    requires |routes| == |flags| && i < |routes|
    ensures Pick(routes[..i + 1], flags[..i + 1]) == Pick(routes[..i], flags[..i]) + if flags[i] then [routes[i]] else []
  {
    assert routes[..i + 1][..i] == routes[..i] && flags[..i + 1][..i] == flags[..i];
  }

  /** The entries of the inventory with one method and path. */
  ghost predicate IsIndex(routes: seq<Route>, byKey: map<string, seq<nat>>, n: nat) {
    && n <= |routes|
    && (forall i :: 0 <= i < n ==> routes[i].Key() in byKey && i in byKey[routes[i].Key()])
    && forall k :: k in byKey ==> forall i :: i in byKey[k] ==> i < n && routes[i].Key() == k
  }

  /** For each entry the requests credited to it. */
  ghost predicate IsLanded(routes: seq<Route>, landed: map<nat, seq<Request>>, done: seq<Request>) {
    forall i: nat, r :: i < |routes| ==> (r in HitsOf(landed, i) <==> r in done && Lands(routes, r, i))
  }

  function HitsOf(landed: map<nat, seq<Request>>, i: nat): seq<Request> { if i in landed then landed[i] else [] }

  method IndexByKey(routes: seq<Route>) returns (byKey: map<string, seq<nat>>)
    ensures IsIndex(routes, byKey, |routes|)
  {
    byKey := map[];
    for index := 0 to |routes|
      invariant IsIndex(routes, byKey, index)
    {
      var key := routes[index].Key();
      byKey := byKey[key := (if key in byKey then byKey[key] else []) + [index]];
    }
  }

  /** The request is added to every entry of the list. */
  method Credit(landed: map<nat, seq<Request>>, siblings: seq<nat>, r: Request) returns (after: map<nat, seq<Request>>)
    ensures forall i: nat, q :: q in HitsOf(after, i) <==> q in HitsOf(landed, i) || (q == r && i in siblings)
  {
    after := landed;
    for k := 0 to |siblings|
      invariant forall i: nat, q :: q in HitsOf(after, i) <==> q in HitsOf(landed, i) || (q == r && i in siblings[..k])
    {
      var i := siblings[k];
      assert siblings[..k + 1] == siblings[..k] + [i];
      after := after[i := HitsOf(after, i) + [r]];
    }
    assert siblings[..|siblings|] == siblings;
  }

  method Land(routes: seq<Route>, exercised: seq<Request>) returns (landed: map<nat, seq<Request>>)
    ensures IsLanded(routes, landed, exercised)
  {
    var byKey := IndexByKey(routes);
    landed := map[];
    for k := 0 to |exercised|
      invariant IsLanded(routes, landed, exercised[..k])
    {
      var r := exercised[k];
      assert exercised[..k + 1] == exercised[..k] + [r];
      if Delivered(r) {
        var index := BestMatch(routes, r.verb, r.path);
        if index.Some? { landed := Credit(landed, byKey[routes[index.value].Key()], r); }
      }
    }
    assert exercised[..|exercised|] == exercised;
  }

  /** `coverage`. */
  method GradeScan(routes: seq<Route>, exercised: seq<Request>) returns (g: Grade)
    ensures g == Graded(routes, exercised)
  {
    var landed := Land(routes, exercised);
    g := Grade([], [], [], []);
    ghost var reached := Reached(routes, exercised);
    ghost var attacked, authenticated := Attacked(routes, exercised), Authenticated(routes, exercised);
    for index := 0 to |routes|
      invariant g == GradedTo(routes, reached, attacked, authenticated, index)
    {
      GradedNext(routes, reached, attacked, authenticated, index);
      var isReached, isAttacked, isAuthenticated := Judge(routes, exercised, landed, index);
      g := AddRoute(g, routes[index], isReached, isAttacked, isAuthenticated);
    }
    assert routes[..|routes|] == routes && reached[..|routes|] == reached && attacked[..|routes|] == attacked;
    assert authenticated[..|routes|] == authenticated && Negated(reached)[..|routes|] == Negated(reached);
  }

  method AddRoute(before: Grade, route: Route, reached: bool, attacked: bool, authenticated: bool) returns (g: Grade)
    requires attacked || authenticated ==> reached
    ensures g == Grade(before.reached + if reached then [route] else [], before.attacked + if attacked then [route] else [],
                       before.authenticated + if authenticated then [route] else [],
                       before.missed + if !reached then [route] else [])
  {
    g := before;
    if !reached {
      g := g.(missed := g.missed + [route]);
    } else {
      g := g.(reached := g.reached + [route]);
      if attacked { g := g.(attacked := g.attacked + [route]); }
      if authenticated { g := g.(authenticated := g.authenticated + [route]); }
    }
  }

  /** The verdicts of one entry, from the requests credited to it. */
  method Judge(routes: seq<Route>, exercised: seq<Request>, landed: map<nat, seq<Request>>, index: nat)
    returns (reached: bool, attacked: bool, authenticated: bool)
    requires index < |routes| && IsLanded(routes, landed, exercised)
    ensures reached == IsReached(routes, exercised, index)
    ensures attacked == IsAttacked(routes, exercised, index)
    ensures authenticated == IsAuthenticated(routes, exercised, index)
    ensures attacked || authenticated ==> reached
  {
    var hits := HitsOf(landed, index);
    assert forall r :: r in hits <==> r in exercised && Lands(routes, r, index);
    if hits != [] { assert hits[0] in hits; }
    reached := hits != [];
    attacked := exists r :: r in hits && Written(r);
    authenticated := exists r :: r in hits && r.authenticated;
  }

  // ---- what the verdicts say ----

  /** The route fits the request, and no other that fits is closer. */
  ghost predicate Fits(routes: seq<Route>, r: Request, j: nat)
    requires j < |routes|
  {
    && Matches(routes[j], r.verb, r.path)
    && forall k :: 0 <= k < |routes| && Matches(routes[k], r.verb, r.path) ==> !Closer(routes[k].path, routes[j].path)
  }

  lemma KeysApart(r: Route, s: Route)
    requires ' ' !in r.verb && ' ' !in s.verb
    ensures r.Key() == s.Key() <==> r.verb == s.verb && r.path == s.path
  {
    SplitOnceFirst(r.verb, ' ', r.path);
    SplitOnceFirst(s.verb, ' ', s.path);
    assert r.Key() == r.verb + ([' '] + r.path) && s.Key() == s.verb + ([' '] + s.path);
  }

  /** Some request in the list got an answer below 500 that is neither a redirect nor 429, and landed on the route. */
  ghost predicate AnsweredAt(routes: seq<Route>, r: Request, route: Route) {
    && (r.status.None? || r.status.value < 300 || 400 <= r.status.value < 429 || 429 < r.status.value < 500)
    && exists j :: 0 <= j < |routes| && Fits(routes, r, j) && routes[j].verb == route.verb && routes[j].path == route.path
  }

  lemma LandsExactly(routes: seq<Route>, r: Request, i: nat)
    requires i < |routes| && forall x :: x in routes ==> ' ' !in x.verb
    ensures Lands(routes, r, i) <==> AnsweredAt(routes, r, routes[i])
  {
    BestIsClosest(routes, r.verb, r.path, |routes|);
    var b := BestMatch(routes, r.verb, r.path);
    if b.Some? {
      assert routes[b.value] in routes && routes[i] in routes;
      KeysApart(routes[b.value], routes[i]);
      if j :| 0 <= j < |routes| && Fits(routes, r, j)
              && routes[j].verb == routes[i].verb && routes[j].path == routes[i].path {
        CloserTotal(routes[j].path, routes[b.value].path);
      }
    }
  }

  /**
   * What the three verdicts of an inventory entry mean: some request of the scan was answered by the route, one of a
   * written probe, one made as a caller.
   */
  lemma VerdictsExactly(routes: seq<Route>, exercised: seq<Request>, i: nat)
    requires i < |routes| && forall x :: x in routes ==> ' ' !in x.verb
    ensures IsReached(routes, exercised, i) <==> exists r :: r in exercised && AnsweredAt(routes, r, routes[i])
    ensures IsAttacked(routes, exercised, i) <==>
            exists r :: r in exercised && AnsweredAt(routes, r, routes[i]) && r.probe.Some? &&
                        r.probe.value !in {"", "DAST-ANONYMOUS-ROUTE-SWEEP"}
    ensures IsAuthenticated(routes, exercised, i) <==>
            exists r :: r in exercised && AnsweredAt(routes, r, routes[i]) && r.authenticated
  {
    forall r
      ensures Lands(routes, r, i) <==> AnsweredAt(routes, r, routes[i])
    {
      LandsExactly(routes, r, i);
    }
  }

  // ---- what a grade guarantees ----

  lemma PickPush(routes: seq<Route>, flags: seq<bool>)
    requires |routes| == |flags| > 0
    ensures var n := |routes| - 1;
            multiset(Pick(routes, flags)) ==
            multiset(Pick(routes[..n], flags[..n])) + if flags[n] then multiset{routes[n]} else multiset{}
  {
  }

  lemma Distributed(a: multiset<Route>, b: multiset<Route>, r: Route, left: bool)
    ensures (a + if left then multiset{r} else multiset{}) + (b + if left then multiset{} else multiset{r}) ==
            (a + b) + multiset{r}
  {
  }

  lemma {:induction false} PickPartition(routes: seq<Route>, flags: seq<bool>)
    requires |routes| == |flags|
    ensures multiset(Pick(routes, flags)) + multiset(Pick(routes, Negated(flags))) == multiset(routes)
  {
    if routes == [] {
      assert Pick(routes, flags) == [] && Pick(routes, Negated(flags)) == [];
    } else {
      var n := |routes| - 1;
      PickPartition(routes[..n], flags[..n]);
      assert Negated(flags)[..n] == Negated(flags[..n]);
      PickPush(routes, flags);
      PickPush(routes, Negated(flags));
      Distributed(multiset(Pick(routes[..n], flags[..n])), multiset(Pick(routes[..n], Negated(flags[..n]))),
                  routes[n], flags[n]);
      assert routes == routes[..n] + [routes[n]];
    }
  }

  lemma {:induction false} PickMonotone(routes: seq<Route>, flags: seq<bool>, more: seq<bool>)
    requires |routes| == |flags| == |more| && forall i :: 0 <= i < |flags| && flags[i] ==> more[i]
    ensures multiset(Pick(routes, flags)) <= multiset(Pick(routes, more))
  {
    if routes == [] {
    } else {
      PickMonotone(routes[..|routes| - 1], flags[..|routes| - 1], more[..|routes| - 1]);
    }
  }

  /** Reached and missed partition the inventory. */
  lemma ReachedAndMissedPartition(routes: seq<Route>, exercised: seq<Request>)
    ensures var g := Graded(routes, exercised); multiset(g.reached) + multiset(g.missed) == multiset(routes)
  {
    PickPartition(routes, Reached(routes, exercised));
  }

  /** What was attacked by a written probe, or as a caller, was reached. */
  lemma DeeperWithinReached(routes: seq<Route>, exercised: seq<Request>)
    ensures var g := Graded(routes, exercised);
            multiset(g.attacked) <= multiset(g.reached) && multiset(g.authenticated) <= multiset(g.reached)
  {
    PickMonotone(routes, Attacked(routes, exercised), Reached(routes, exercised));
    PickMonotone(routes, Authenticated(routes, exercised), Reached(routes, exercised));
  }

  /** More requests never take a verdict back. */
  lemma MoreRequestsNeverUnreach(routes: seq<Route>, some: seq<Request>, more: seq<Request>)
    requires forall r :: r in some ==> r in more
    ensures var g, h := Graded(routes, some), Graded(routes, more);
            && multiset(g.reached) <= multiset(h.reached) && multiset(g.attacked) <= multiset(h.attacked)
            && multiset(g.authenticated) <= multiset(h.authenticated) && multiset(h.missed) <= multiset(g.missed)
  {
    PickMonotone(routes, Reached(routes, some), Reached(routes, more));
    PickMonotone(routes, Attacked(routes, some), Attacked(routes, more));
    PickMonotone(routes, Authenticated(routes, some), Authenticated(routes, more));
    PickMonotone(routes, Negated(Reached(routes, more)), Negated(Reached(routes, some)));
  }

  /** Two inventories that declare the same methods and paths, in whatever order and however often. */
  ghost predicate SameSurface(a: seq<Route>, b: seq<Route>) {
    && (forall i :: 0 <= i < |a| ==> Declares(b, a[i].verb, a[i].path))
    && (forall i :: 0 <= i < |b| ==> Declares(a, b[i].verb, b[i].path))
  }

  ghost predicate Declares(routes: seq<Route>, verb: string, path: string) {
    exists i :: 0 <= i < |routes| && routes[i].verb == verb && routes[i].path == path
  }

  /** The method and path a request is credited to depend on the surface alone. */
  lemma SameBestMatch(a: seq<Route>, b: seq<Route>, verb: string, path: string)
    requires SameSurface(a, b)
    ensures BestMatch(a, verb, path).Some? <==> BestMatch(b, verb, path).Some?
    ensures BestMatch(a, verb, path).Some? ==>
              a[BestMatch(a, verb, path).value].Key() == b[BestMatch(b, verb, path).value].Key()
  {
    BestIsClosest(a, verb, path, |a|);
    BestIsClosest(b, verb, path, |b|);
    var x, y := BestMatch(a, verb, path), BestMatch(b, verb, path);
    if x.Some? {
      var j :| 0 <= j < |b| && b[j].verb == a[x.value].verb && b[j].path == a[x.value].path;
      assert Matches(b[j], verb, path);
    }
    if y.Some? {
      var i :| 0 <= i < |a| && a[i].verb == b[y.value].verb && a[i].path == b[y.value].path;
      assert Matches(a[i], verb, path);
    }
    if x.Some? && y.Some? { CloserTotal(a[x.value].path, b[y.value].path); }
  }

  /** Reordering or repeating inventory entries changes no verdict of a method and path. */
  lemma VerdictPerSurface(a: seq<Route>, b: seq<Route>, exercised: seq<Request>, i: nat, j: nat)
    requires SameSurface(a, b) && i < |a| && j < |b| && a[i].Key() == b[j].Key()
    ensures IsReached(a, exercised, i) <==> IsReached(b, exercised, j)
    ensures IsAttacked(a, exercised, i) <==> IsAttacked(b, exercised, j)
    ensures IsAuthenticated(a, exercised, i) <==> IsAuthenticated(b, exercised, j)
  {
    forall r
      ensures Lands(a, r, i) <==> Lands(b, r, j)
    {
      SameBestMatch(a, b, r.verb, r.path);
    }
  }
}
