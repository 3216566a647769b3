/** Dependency trees, versions and the gate (security/deps/harness/deps_check.py). */
module DepsTree {
  import opened Arith
  import opened Digits
  import opened Results
  import opened Texts

  // ---- versions ----

  /** An element of a version key: a number, or a text that is not a number. */
  datatype Piece = Num(n: nat) | Txt(s: string)

  function PieceOf(text: string): Piece {
    if text != "" && (forall i :: 0 <= i < |text| ==> IsDigit(text[i])) then Num(Value(text)) else Txt(text)
  }

  /** `version.partition("-")`: the core and the qualifier. */
  function Partition(version: string): (string, string) {
    match SplitOnce(version, '-') case Some(p) => p case None => (version, "")
  }

  function Pieces(texts: seq<string>): (ps: seq<Piece>)
    ensures |ps| == |texts|
  {
    seq(|texts|, i requires 0 <= i < |texts| => PieceOf(texts[i]))
  }

  const PARTS := 4

  function Padded4(ps: seq<Piece>): (r: seq<Piece>)
    ensures |r| >= PARTS && ps <= r
    decreases PARTS - |ps|
  {
    if |ps| < PARTS then Padded4(ps + [Num(0)]) else ps
  }

  function QualifierOf(version: string): string { if Partition(version).1 == "" then "~" else Partition(version).1 }

  function VersionKey(version: string): seq<Piece> {
    Padded4(Pieces(SplitOn(Partition(version).0, '.'))) + [Txt(QualifierOf(version))]
  }

  /** `version_key`. */
  method VersionKeyOf(version: string) returns (key: seq<Piece>)
    ensures key == VersionKey(version)
  {
    var (core, qualifier) := Partition(version);
    var texts := SplitOn(core, '.');
    var parts: seq<Piece> := [];
    for i := 0 to |texts|
      invariant parts == Pieces(texts[..i])
    {
      parts := parts + [PieceOf(texts[i])];
    }
    assert texts[..|texts|] == texts;
    while |parts| < PARTS
      invariant Padded4(parts) == Padded4(Pieces(texts))
      decreases PARTS - |parts|
    {
      parts := parts + [Num(0)];
    }
    return parts + [Txt(if qualifier == "" then "~" else qualifier)];
  }

  /** Comparing a number with a text is a type error. */
  datatype TypeError = Incomparable

  function PieceLess(a: Piece, b: Piece): Result<bool, TypeError> {
    match (a, b)
    case (Num(m), Num(n)) => Ok(m < n)
    case (Txt(s), Txt(t)) => Ok(LexLess(s, t))
    case _ => Err(Incomparable)
  }

  /** `a < b` on tuples: the first elements that differ decide. */
  function KeyLess(a: seq<Piece>, b: seq<Piece>): Result<bool, TypeError> {
    if a == [] || b == [] then Ok(|a| < |b|)
    else if a[0] == b[0] then KeyLess(a[1..], b[1..])
    else PieceLess(a[0], b[0])
  }

  /** `a <= b` on tuples. */
  function KeyAtMost(a: seq<Piece>, b: seq<Piece>): Result<bool, TypeError> {
    if a == [] || b == [] then Ok(|a| <= |b|)
    else if a[0] == b[0] then KeyAtMost(a[1..], b[1..])
    else PieceLess(a[0], b[0])
  }

  /** A version of one to four numeric parts, with or without a qualifier. */
  predicate Plain(version: string) {
    var texts := SplitOn(Partition(version).0, '.');
    |texts| <= PARTS && forall i :: 0 <= i < |texts| ==> PlainNumber(texts[i])
  }

  /** The i-th number of a plain version; missing ones are zero. */
  function NumberAt(version: string, i: nat): nat
    requires Plain(version)
  {
    var texts := SplitOn(Partition(version).0, '.');
    if i < |texts| then PieceOf(texts[i]).n else 0
  }

  lemma {:induction false} Padding(ps: seq<Piece>, i: nat)
    requires |ps| <= PARTS && i < PARTS
    ensures |Padded4(ps)| == PARTS && Padded4(ps)[i] == if i < |ps| then ps[i] else Num(0)
    decreases PARTS - |ps|
  {
    if |ps| == PARTS {
    } else {
      Padding(ps + [Num(0)], i);
    }
  }

  lemma PlainKey(version: string)
    requires Plain(version)
    ensures VersionKey(version) ==
            [Num(NumberAt(version, 0)), Num(NumberAt(version, 1)), Num(NumberAt(version, 2)), Num(NumberAt(version, 3)),
             Txt(QualifierOf(version))]
  {
    var ps := Pieces(SplitOn(Partition(version).0, '.'));
    Padding(ps, 0);
    Padding(ps, 1);
    Padding(ps, 2);
    Padding(ps, 3);
  }

  /** The order of five-element keys, spelled out. */
  predicate FiveLess(a: nat, b: nat, c: nat, d: nat, q: string, a': nat, b': nat, c': nat, d': nat, q': string) {
    a < a' || (a == a' && (b < b' || (b == b' && (c < c' || (c == c' && (d < d' || (d == d' && LexLess(q, q'))))))))
  }

  /** The order of plain versions: by their four numbers, then by qualifier. */
  predicate Before(v: string, w: string)
    requires Plain(v) && Plain(w)
  {
    FiveLess(NumberAt(v, 0), NumberAt(v, 1), NumberAt(v, 2), NumberAt(v, 3), QualifierOf(v),
             NumberAt(w, 0), NumberAt(w, 1), NumberAt(w, 2), NumberAt(w, 3), QualifierOf(w))
  }

  lemma KeyStep(x: Piece, a: seq<Piece>, y: Piece, b: seq<Piece>)
    ensures KeyLess([x] + a, [y] + b) == if x == y then KeyLess(a, b) else PieceLess(x, y)
    ensures KeyAtMost([x] + a, [y] + b) == if x == y then KeyAtMost(a, b) else PieceLess(x, y)
  {
    assert ([x] + a)[1..] == a && ([y] + b)[1..] == b;
  }

  lemma QualifierKeys(q: string, q': string)
    ensures KeyLess([Txt(q)], [Txt(q')]) == Ok(LexLess(q, q'))
    ensures KeyAtMost([Txt(q)], [Txt(q')]) == Ok(!LexLess(q', q))
  {
    LexTotal(q, q');
    KeyStep(Txt(q), [], Txt(q'), []);
    assert [Txt(q)] == [Txt(q)] + [] && [Txt(q')] == [Txt(q')] + [];
  }

  /** A number in front of two keys whose order is known. */
  lemma NumberFirst(m: nat, a: seq<Piece>, n: nat, b: seq<Piece>, less: bool, more: bool)
    requires KeyLess(a, b) == Ok(less) && KeyAtMost(a, b) == Ok(!more)
    ensures KeyLess([Num(m)] + a, [Num(n)] + b) == Ok(m < n || (m == n && less))
    ensures KeyAtMost([Num(m)] + a, [Num(n)] + b) == Ok(!(n < m || (n == m && more)))
  {
    KeyStep(Num(m), a, Num(n), b);
  }

  /** Comparing the keys of plain versions never fails and follows that order. */
  lemma PlainComparison(v: string, w: string)
    requires Plain(v) && Plain(w)
    ensures KeyLess(VersionKey(v), VersionKey(w)) == Ok(Before(v, w))
    ensures KeyAtMost(VersionKey(v), VersionKey(w)) == Ok(!Before(w, v))
  {
    PlainKey(v);
    PlainKey(w);
    FiveComparison(NumberAt(v, 0), NumberAt(v, 1), NumberAt(v, 2), NumberAt(v, 3), QualifierOf(v),
                   NumberAt(w, 0), NumberAt(w, 1), NumberAt(w, 2), NumberAt(w, 3), QualifierOf(w));
  }

  lemma FiveComparison(a: nat, b: nat, c: nat, d: nat, q: string, a': nat, b': nat, c': nat, d': nat, q': string)
    ensures KeyLess([Num(a), Num(b), Num(c), Num(d), Txt(q)], [Num(a'), Num(b'), Num(c'), Num(d'), Txt(q')]) ==
            Ok(FiveLess(a, b, c, d, q, a', b', c', d', q'))
    ensures KeyAtMost([Num(a), Num(b), Num(c), Num(d), Txt(q)], [Num(a'), Num(b'), Num(c'), Num(d'), Txt(q')]) ==
            Ok(!FiveLess(a', b', c', d', q', a, b, c, d, q))
  {
    QualifierKeys(q, q');
    var less, more := LexLess(q, q'), LexLess(q', q);
    var s, t := [Txt(q)], [Txt(q')];
    NumberFirst(d, s, d', t, less, more);
    less, more := d < d' || (d == d' && less), d' < d || (d' == d && more);
    s, t := [Num(d)] + s, [Num(d')] + t;
    NumberFirst(c, s, c', t, less, more);
    less, more := c < c' || (c == c' && less), c' < c || (c' == c && more);
    s, t := [Num(c)] + s, [Num(c')] + t;
    NumberFirst(b, s, b', t, less, more);
    less, more := b < b' || (b == b' && less), b' < b || (b' == b && more);
    s, t := [Num(b)] + s, [Num(b')] + t;
    NumberFirst(a, s, a', t, less, more);
    assert [Num(a)] + s == [Num(a), Num(b), Num(c), Num(d), Txt(q)];
    assert [Num(a')] + t == [Num(a'), Num(b'), Num(c'), Num(d'), Txt(q')];
  }

  lemma {:induction false} PaddingKeeps(ps: seq<Piece>)
    ensures ps <= Padded4(ps)
  {
  }

  /**
   * A part of any version is a number in its key exactly when it is a non-empty run of digits, and is kept as text
   * otherwise; comparing a number with a text fails, and two texts are compared as such.
   */
  lemma PartsExactly(version: string, i: nat)
    requires i < |SplitOn(Partition(version).0, '.')|
    ensures var part, key := SplitOn(Partition(version).0, '.')[i], VersionKey(version);
            && |key| > i
            && (key[i].Num? <==> part != "" && forall c :: c in part ==> '0' <= c <= '9')
            && (key[i].Txt? ==> key[i] == Txt(part))
    ensures var piece := VersionKey(version)[i];
            piece.Txt? ==>
              forall n: nat, s: string ::
                && PieceLess(Num(n), piece) == PieceLess(piece, Num(n)) == Err(Incomparable)
                && (s != piece.s ==> PieceLess(piece, Txt(s)) == Ok(!LexLess(s, piece.s)))
  {
    var texts := SplitOn(Partition(version).0, '.');
    PaddingKeeps(Pieces(texts));
    var part := texts[i];
    assert VersionKey(version)[i] == PieceOf(part);
    if forall c :: c in part ==> '0' <= c <= '9' {
      forall k | 0 <= k < |part|
        ensures IsDigit(part[k])
      {
        assert part[k] in part;
      }
    }
    forall s: string
      ensures s != part ==> LexLess(part, s) == !LexLess(s, part)
    {
      LexTotal(part, s);
    }
  }

  // ---- versions by the numbers they print ----

  /** A number and how many digits it is printed with. */
  datatype Printed = Printed(number: nat, width: nat)

  /** What a version says: its numbers and its qualifier. */
  datatype Release = Release(numbers: seq<Printed>, qualifier: Option<string>)

  ghost function PartTexts(numbers: seq<Printed>): (texts: seq<string>)
    ensures |texts| == |numbers|
  {
    seq(|numbers|, i requires 0 <= i < |numbers| => Fixed(numbers[i].number, numbers[i].width))
  }

  /** The version prints one to four numbers in decimal, with dots between them, and perhaps a qualifier. */
  ghost predicate Prints(version: string, r: Release) {
    && 1 <= |r.numbers| <= 4
    && (forall p :: p in r.numbers ==> p.width > 0 && p.number < Pow10(p.width))
    && version == Join(PartTexts(r.numbers), '.') + match r.qualifier case None => "" case Some(q) => "-" + q
  }

  /** A missing number counts as zero. */
  function NumberOf(r: Release, i: nat): nat { if i < |r.numbers| then r.numbers[i].number else 0 }

  /** A missing or empty qualifier counts as a tilde. */
  function TagOf(r: Release): string { if r.qualifier in {None, Some("")} then "~" else r.qualifier.value }

  ghost predicate SameUpTo(r: Release, s: Release, i: nat) {
    forall j :: 0 <= j < i ==> NumberOf(r, j) == NumberOf(s, j)
  }

  /** The first numbers that differ decide, and after four equal ones the qualifiers. */
  ghost predicate Earlier(r: Release, s: Release) {
    || (exists i :: 0 <= i < 4 && NumberOf(r, i) < NumberOf(s, i) && SameUpTo(r, s, i))
    || (SameUpTo(r, s, 4) && LexLess(TagOf(r), TagOf(s)))
  }

  lemma DigitsPrinted(n: nat, w: nat)
    requires w > 0 && n < Pow10(w)
    ensures PlainNumber(Fixed(n, w)) && PieceOf(Fixed(n, w)) == Num(n)
  {
    ValueOfFixed(n, w);
  }

  lemma PrintedParts(version: string, r: Release)
    requires Prints(version, r)
    ensures SplitOn(Partition(version).0, '.') == PartTexts(r.numbers)
    ensures QualifierOf(version) == TagOf(r)
  {
    var texts := PartTexts(r.numbers);
    forall p | p in texts
      ensures '-' !in p && '.' !in p
    {
      var i :| 0 <= i < |texts| && texts[i] == p;
      assert r.numbers[i] in r.numbers;
      DigitsPrinted(r.numbers[i].number, r.numbers[i].width);
    }
    var core := Join(texts, '.');
    NotInJoin(texts, '.', '-');
    SplitOfJoin(texts, '.');
    if r.qualifier.Some? {
      SplitOnceFirst(core, '-', r.qualifier.value);
      assert version == core + (['-'] + r.qualifier.value);
    } else {
      assert version == core;
      SplitOnceNever(core, '-');
    }
  }

  /** A version is plain when it prints a release, and its numbers are those printed. */
  lemma PrintedIsPlain(version: string, r: Release)
    requires Prints(version, r)
    ensures Plain(version)
    ensures forall i :: 0 <= i < 4 ==> NumberAt(version, i) == NumberOf(r, i)
    ensures QualifierOf(version) == TagOf(r)
  {
    PrintedParts(version, r);
    forall i | 0 <= i < |r.numbers|
      ensures PlainNumber(PartTexts(r.numbers)[i]) && PieceOf(PartTexts(r.numbers)[i]) == Num(NumberOf(r, i))
    {
      assert r.numbers[i] in r.numbers;
      DigitsPrinted(r.numbers[i].number, r.numbers[i].width);
    }
  }

  lemma {:induction false} JoinOfSplit(s: string, c: char)
    ensures Join(SplitOn(s, c), c) == s
    ensures forall p :: p in SplitOn(s, c) ==> c !in p
  {
    if s == "" {
    } else {
      JoinOfSplit(s[1..], c);
      var rest, all := SplitOn(s[1..], c), SplitOn(s, c);
      if s[0] == c {
        assert all == [""] + rest && all[1..] == rest;
        assert s == [c] + s[1..];
      } else {
        assert all[0] == [s[0]] + rest[0] && all[1..] == rest[1..];
        assert s == [s[0]] + s[1..];
      }
    }
  }

  lemma {:induction false} SplitOnceJoins(s: string, c: char)
    ensures match SplitOnce(s, c) case None => c !in s case Some((a, b)) => s == a + ([c] + b) && c !in a
  {
    if s != "" && s[0] != c {
      SplitOnceJoins(s[1..], c);
      assert s == [s[0]] + s[1..];
    }
  }

  /** Every plain version prints a release. */
  lemma PlainIsPrinted(version: string) returns (r: Release)
    requires Plain(version)
    ensures Prints(version, r)
  {
    var core := Partition(version).0;
    var texts := SplitOn(core, '.');
    var numbers := seq(|texts|, i requires 0 <= i < |texts| => Printed(Value(texts[i]), |texts[i]|));
    forall i | 0 <= i < |texts|
      ensures numbers[i].number < Pow10(numbers[i].width) && PartTexts(numbers)[i] == texts[i]
    {
      FixedOfValue(texts[i]);
    }
    assert PartTexts(numbers) == texts;
    SplitOnceJoins(version, '-');
    JoinOfSplit(core, '.');
    r := Release(numbers, if SplitOnce(version, '-').Some? then Some(Partition(version).1) else None);
    assert SplitOnce(version, '-').Some? ==> version == core + (['-'] + Partition(version).1);
  }

  lemma EarlierSpelled(r: Release, s: Release)
    ensures Earlier(r, s) <==> FiveLess(NumberOf(r, 0), NumberOf(r, 1), NumberOf(r, 2), NumberOf(r, 3), TagOf(r),
                                        NumberOf(s, 0), NumberOf(s, 1), NumberOf(s, 2), NumberOf(s, 3), TagOf(s))
  {
    assert SameUpTo(r, s, 1) <==> NumberOf(r, 0) == NumberOf(s, 0);
    assert SameUpTo(r, s, 2) <==> SameUpTo(r, s, 1) && NumberOf(r, 1) == NumberOf(s, 1);
    assert SameUpTo(r, s, 3) <==> SameUpTo(r, s, 2) && NumberOf(r, 2) == NumberOf(s, 2);
    assert SameUpTo(r, s, 4) <==> SameUpTo(r, s, 3) && NumberOf(r, 3) == NumberOf(s, 3);
  }

  lemma EarlierIsBefore(v: string, r: Release, w: string, s: Release)
    requires Prints(v, r) && Prints(w, s) && Plain(v) && Plain(w)
    ensures Before(v, w) <==> Earlier(r, s)
  {
    PrintedIsPlain(v, r);
    PrintedIsPlain(w, s);
    EarlierSpelled(r, s);
  }

  /**
   * Comparing the keys of two versions never fails, and is comparing the numbers they print, padded with zeros,
   * and then their qualifiers.
   */
  lemma PrintedComparison(v: string, r: Release, w: string, s: Release)
    requires Prints(v, r) && Prints(w, s)
    ensures KeyLess(VersionKey(v), VersionKey(w)) == Ok(Earlier(r, s))
    ensures KeyAtMost(VersionKey(v), VersionKey(w)) == Ok(!Earlier(s, r))
  {
    PrintedIsPlain(v, r);
    PrintedIsPlain(w, s);
    PlainComparison(v, w);
    EarlierIsBefore(v, r, w, s);
    EarlierIsBefore(w, s, v, r);
  }

  /** The order of plain versions is total: one of two with different keys comes first, and never both. */
  lemma BeforeTotal(v: string, w: string)
    requires Plain(v) && Plain(w)
    ensures Before(v, w) || Before(w, v) || VersionKey(v) == VersionKey(w)
    ensures !(Before(v, w) && Before(w, v))
    ensures VersionKey(v) == VersionKey(w) ==> !Before(v, w)
  {
    PlainKey(v);
    PlainKey(w);
    LexTotal(QualifierOf(v), QualifierOf(w));
  }

  lemma BeforeTransitive(u: string, v: string, w: string)
    requires Plain(u) && Plain(v) && Plain(w) && Before(u, v) && Before(v, w)
    ensures Before(u, w)
  {
    if LexLess(QualifierOf(u), QualifierOf(v)) && LexLess(QualifierOf(v), QualifierOf(w)) {
      LexTransitive(QualifierOf(u), QualifierOf(v), QualifierOf(w));
    }
  }

  /** A qualified version sorts before the release with the same numbers exactly when its qualifier starts below `~`. */
  lemma QualifierFirst(v: string, w: string)
    requires Plain(v) && Plain(w) && forall i :: 0 <= i < PARTS ==> NumberAt(v, i) == NumberAt(w, i)
    requires Partition(v).1 != "" && Partition(w).1 == ""
    ensures Before(v, w) <==> Partition(v).1[0] < '~'
  {
    assert "~"[1..] == "" && !LexLess(QualifierOf(v)[1..], "");
    assert NumberAt(v, 0) == NumberAt(w, 0) && NumberAt(v, 1) == NumberAt(w, 1);
    assert NumberAt(v, 2) == NumberAt(w, 2) && NumberAt(v, 3) == NumberAt(w, 3);
  }

  // ---- advisories ----

  datatype Advisory = Advisory(group: string, name: string, introduced: string, fixed: string)

  /** `is_vulnerable`: the chained comparison stops at a false first half. */
  function IsVulnerable(a: Advisory, version: string): Result<bool, TypeError> {
    var from := KeyAtMost(VersionKey(a.introduced), VersionKey(version));
    if from.Err? || !from.value then from else KeyLess(VersionKey(version), VersionKey(a.fixed))
  }

  predicate PlainRange(a: Advisory) { Plain(a.introduced) && Plain(a.fixed) }

  /** The release that the version prints lies in the half-open range of the advisory's. */
  ghost predicate InRangeOf(a: Advisory, version: string) {
    exists low: Release, high: Release, r: Release ::
      Prints(a.introduced, low) && Prints(a.fixed, high) && Prints(version, r) && !Earlier(r, low) && Earlier(r, high)
  }

  lemma VulnerableExactlyInRange(a: Advisory, version: string)
    requires PlainRange(a) && Plain(version)
    ensures IsVulnerable(a, version) == Ok(InRangeOf(a, version))
  {
    var low := PlainIsPrinted(a.introduced);
    var high := PlainIsPrinted(a.fixed);
    var r := PlainIsPrinted(version);
    PrintedComparison(a.introduced, low, version, r);
    PrintedComparison(version, r, a.fixed, high);
    forall l, h, x | Prints(a.introduced, l) && Prints(a.fixed, h) && Prints(version, x)
      ensures !Earlier(x, l) && Earlier(x, h) <==> !Earlier(r, low) && Earlier(r, high)
    {
      PrintedComparison(a.introduced, l, version, x);
      PrintedComparison(version, x, a.fixed, h);
    }
  }

  lemma TwoNumbers(version: string, m: Printed, n: Printed)
    requires m.width > 0 && n.width > 0 && m.number < Pow10(m.width) && n.number < Pow10(n.width)
    requires version == Fixed(m.number, m.width) + ("." + Fixed(n.number, n.width))
    ensures Prints(version, Release([m, n], None))
  {
    var texts := PartTexts([m, n]);
    assert texts[1..] == [texts[1]];
  }

  lemma ThreeNumbers(version: string, m: Printed, n: Printed, o: Printed)
    requires m.width > 0 && n.width > 0 && m.number < Pow10(m.width) && n.number < Pow10(n.width)
    requires o.width > 0 && o.number < Pow10(o.width)
    requires version == Fixed(m.number, m.width) + ("." + (Fixed(n.number, n.width) + ("." + Fixed(o.number, o.width))))
    ensures Prints(version, Release([m, n, o], None))
  {
    var texts := PartTexts([m, n, o]);
    assert texts[1..] == [texts[1], texts[2]] && texts[1..][1..] == [texts[2]];
    assert Join(texts[1..], '.') == texts[1] + ("." + texts[2]);
  }

  lemma EarlierAt(r: Release, s: Release, i: nat)
    requires i < 4 && NumberOf(r, i) < NumberOf(s, i) && SameUpTo(r, s, i)
    ensures Earlier(r, s) && !Earlier(s, r)
  {
    forall j | 0 <= j < 4 && NumberOf(s, j) < NumberOf(r, j)
      ensures !SameUpTo(s, r, j)
    {
      assert i < j ==> NumberOf(s, i) != NumberOf(r, i);
    }
  }

  lemma NeitherEarlier(r: Release, s: Release)
    requires SameUpTo(r, s, 4) && TagOf(r) == TagOf(s)
    ensures !Earlier(r, s)
  {
    Irreflexive(TagOf(r));
  }

  /** Numbers are compared, not digits: version 1.9 is before 1.10. */
  lemma NumbersNotDigits(a: Advisory, one: Printed, five: Printed, nine: Printed, ten: Printed, zero: Printed)
    requires one == Printed(1, 1) && five == Printed(5, 1) && nine == Printed(9, 1)
    requires ten == Printed(10, 2) && zero == Printed(0, 1)
    requires Prints(a.introduced, Release([one, five], None)) && Prints(a.fixed, Release([one, ten, zero], None))
    requires Prints("1.9", Release([one, nine], None)) && Prints("1.10", Release([one, ten], None))
    ensures IsVulnerable(a, "1.9") == Ok(true) && IsVulnerable(a, "1.10") == Ok(false)
  {
    var low, high := Release([one, five], None), Release([one, ten, zero], None);
    var r, s := Release([one, nine], None), Release([one, ten], None);
    assert NumberOf(r, 0) == NumberOf(s, 0) == NumberOf(low, 0) == NumberOf(high, 0) == 1;
    assert NumberOf(r, 1) == 9 && NumberOf(s, 1) == 10 && NumberOf(low, 1) == 5 && NumberOf(high, 1) == 10;
    EarlierAt(low, r, 1);
    EarlierAt(r, high, 1);
    EarlierAt(low, s, 1);
    NeitherEarlier(s, high);
    var v, w := "1.9", "1.10";
    PrintedComparison(a.introduced, low, v, r);
    PrintedComparison(v, r, a.fixed, high);
    PrintedComparison(a.introduced, low, w, s);
    PrintedComparison(w, s, a.fixed, high);
  }

  lemma DigitTexts()
    ensures Fixed(0, 1) == "0" && Fixed(1, 1) == "1" && Fixed(5, 1) == "5" && Fixed(9, 1) == "9" && Fixed(10, 2) == "10"
    ensures Pow10(1) == 10 && Pow10(2) == 100
  {
  }

  lemma NineBeforeTen(a: Advisory, one: Printed, five: Printed, nine: Printed, ten: Printed, zero: Printed)
    requires a.introduced == "1.5" && a.fixed == "1.10.0"
    requires one == Printed(1, 1) && five == Printed(5, 1) && nine == Printed(9, 1)
    requires ten == Printed(10, 2) && zero == Printed(0, 1)
    ensures IsVulnerable(a, "1.9") == Ok(true) && IsVulnerable(a, "1.10") == Ok(false)
  {
    DigitTexts();
    TwoNumbers("1.5", one, five);
    TwoNumbers("1.9", one, nine);
    TwoNumbers("1.10", one, ten);
    ThreeNumbers("1.10.0", one, ten, zero);
    NumbersNotDigits(a, one, five, nine, ten, zero);
  }

  // ---- the walk over the printed tree ----

  /**
   * A line that the pattern of the build tool matched: the length of its indent, the coordinate, the version unless
   * the line has none, and whether it carries the constraint marker.
   */
  datatype Line = Line(indent: nat, group: string, name: string, version: Option<string>, constraint: bool, text: string)

  datatype Occurrence = Occurrence(version: string, depth: nat, parent: Option<string>, vulnerable: bool)

  datatype Walk = Walk(stack: map<int, string>, occurrences: seq<Occurrence>, unreadable: seq<string>)

  function Coordinate(group: string, name: string, version: string): string { group + ":" + name + ":" + version }

  predicate Concerns(a: Advisory, group: string, name: string) { group == a.group && name == a.name }

  function Parent(stack: map<int, string>, depth: int): Option<string> {
    if depth - 1 in stack then Some(stack[depth - 1]) else None
  }

  function WalkLine(w: Walk, line: Line, a: Advisory, width: nat): Result<Walk, TypeError>
    requires width > 0
  {
    if line.constraint then Ok(w)
    else if line.version.None? then
      Ok(if Concerns(a, line.group, line.name) then w.(unreadable := w.unreadable + [line.text]) else w)
    else
      var depth := line.indent / width;
      var stack := w.stack[depth := Coordinate(line.group, line.name, line.version.value)];
      if !Concerns(a, line.group, line.name) then Ok(w.(stack := stack))
      else
        match IsVulnerable(a, line.version.value)
        case Err(e) => Err(e)
        case Ok(v) =>
          Ok(Walk(stack, w.occurrences + [Occurrence(line.version.value, depth, Parent(stack, depth), v)], w.unreadable))
  }

  function WalkLines(w: Walk, lines: seq<Line>, a: Advisory, width: nat): Result<Walk, TypeError>
    requires width > 0
    decreases |lines|
  {
    if lines == [] then Ok(w)
    else
      match WalkLine(w, lines[0], a, width)
      case Err(e) => Err(e)
      case Ok(x) => WalkLines(x, lines[1..], a, width)
  }

  const NOTHING := Walk(map[], [], [])

  /** `parse_tree`, from the matched lines. */
  method ParseTree(lines: seq<Line>, a: Advisory, width: nat) returns (r: Result<(seq<Occurrence>, seq<string>), TypeError>)
    requires width > 0
    ensures var w := WalkLines(NOTHING, lines, a, width);
            r == if w.Ok? then Ok((w.value.occurrences, w.value.unreadable)) else Err(w.error)
  {
    var stack: map<int, string> := map[];
    var occurrences: seq<Occurrence> := [];
    var unreadable: seq<string> := [];
    for i := 0 to |lines|
      invariant WalkLines(Walk(stack, occurrences, unreadable), lines[i..], a, width) == WalkLines(NOTHING, lines, a, width)
    {
      var line := lines[i];
      assert lines[i..][0] == line && lines[i..][1..] == lines[i + 1..];
      if line.constraint { continue; }
      var isAdvisory := Concerns(a, line.group, line.name);
      if line.version.None? {
        if isAdvisory { unreadable := unreadable + [line.text]; }
        continue;
      }
      var depth := line.indent / width;
      stack := stack[depth := Coordinate(line.group, line.name, line.version.value)];
      if isAdvisory {
        var vulnerable := IsVulnerable(a, line.version.value);
        if vulnerable.Err? { return Err(vulnerable.error); }
        occurrences := occurrences + [Occurrence(line.version.value, depth, Parent(stack, depth), vulnerable.value)];
      }
    }
    assert lines[|lines|..] == [];
    return Ok((occurrences, unreadable));
  }

  /** A qualifier that starts at `~` is not first: it sorts like the release itself, or after it. */
  lemma TildeIsNotFirst()
    ensures Plain("1-~") && Plain("1") && Partition("1-~") == ("1", "~") && Partition("1") == ("1", "")
    ensures !Before("1-~", "1")
  {
    assert "1-~"[1..] == "-~" && "-~"[1..] == "~" && "1"[1..] == "";
    assert SplitOnce("-~", '-') == Some(("", "~"));
    assert SplitOn("", '.') == [""] && [""][1..] == [] && ['1'] + "" == "1";
    assert SplitOn("1", '.') == ["1"];
    assert PieceOf("1").Num?;
    Irreflexive("~");
  }

  // ---- dependency trees ----

  /**
   * A node of the tree with what it brings in. Only a dependency with a version is recorded on the stack of ancestors: a
   * constraint, a coordinate that is printed without a version, and a line that the pattern does not match, such as a
   * project of the same build, are not.
   */
  datatype Dep =
    | Dep(group: string, name: string, version: string, brings: seq<Dep>)
    | Constraint(line: Line, brings: seq<Dep>)
    | NoVersion(group: string, name: string, text: string, brings: seq<Dep>)
    | Skipped(brings: seq<Dep>)

  /** The matched lines of the node itself. */
  function OwnLines(d: Dep, depth: nat, width: nat): seq<Line> {
    match d
    case Dep(g, n, v, _) => [Line(depth * width, g, n, Some(v), false, Coordinate(g, n, v))]
    case Constraint(line, _) => [line.(constraint := true)]
    case NoVersion(g, n, text, _) => [Line(depth * width, g, n, None, false, text)]
    case Skipped(_) => []
  }

  function Listed(d: Dep, depth: nat, width: nat): seq<Line> {
    OwnLines(d, depth, width) + Listing(d.brings, depth + 1, width)
  }

  /** The printed tree, parents before what they bring in. */
  function Listing(ds: seq<Dep>, depth: nat, width: nat): seq<Line> {
    if ds == [] then [] else Listed(ds[0], depth, width) + Listing(ds[1..], depth, width)
  }

  /** The coordinate by which a node can be named as a parent. */
  function NameOf(d: Dep): Option<string> { if d.Dep? then Some(Coordinate(d.group, d.name, d.version)) else None }

  /** The node is the advisory's artifact. */
  predicate IsTarget(d: Dep, a: Advisory) { d.Dep? && Concerns(a, d.group, d.name) }

  /** Every occurrence of the advisory's artifact in a tree, with its true parent when that has a coordinate. */
  ghost function Occurring(ds: seq<Dep>, depth: nat, parent: Option<string>, a: Advisory): seq<Occurrence>
    requires PlainRange(a) && Readable(ds, a)
  {
    if ds == [] then [] else OccurringIn(ds[0], depth, parent, a) + Occurring(ds[1..], depth, parent, a)
  }

  ghost function OccurringIn(d: Dep, depth: nat, parent: Option<string>, a: Advisory): seq<Occurrence>
    requires PlainRange(a) && ReadableDep(d, a)
  {
    OwnOccurrence(d, depth, parent, a) + Occurring(d.brings, depth + 1, NameOf(d), a)
  }

  ghost function OwnOccurrence(d: Dep, depth: nat, parent: Option<string>, a: Advisory): seq<Occurrence>
    requires PlainRange(a) && ReadableDep(d, a)
  {
    if IsTarget(d, a) then [Occurrence(d.version, depth, parent, InRangeOf(a, d.version))] else []
  }

  /** Every version of the advisory's artifact is a plain one. */
  predicate Readable(ds: seq<Dep>, a: Advisory) { ds == [] || (ReadableDep(ds[0], a) && Readable(ds[1..], a)) }

  predicate ReadableDep(d: Dep, a: Advisory) { (IsTarget(d, a) ==> Plain(d.version)) && Readable(d.brings, a) }

  /** The lines that name the artifact without a version. */
  function Unreadable(ds: seq<Dep>, a: Advisory): seq<string> {
    if ds == [] then [] else UnreadableIn(ds[0], a) + Unreadable(ds[1..], a)
  }

  function UnreadableIn(d: Dep, a: Advisory): seq<string> { OwnUnreadable(d, a) + Unreadable(d.brings, a) }

  function OwnUnreadable(d: Dep, a: Advisory): seq<string> {
    if d.NoVersion? && Concerns(a, d.group, d.name) then [d.text] else []
  }

  // ---- which parents are reported ----

  /** The depths at which the nodes of a tree are recorded on the stack. */
  function Recorded(ds: seq<Dep>, depth: nat): set<int> {
    if ds == [] then {} else RecordedIn(ds[0], depth) + Recorded(ds[1..], depth)
  }

  function RecordedIn(d: Dep, depth: nat): set<int> { OwnDepth(d, depth) + Recorded(d.brings, depth + 1) }

  function OwnDepth(d: Dep, depth: nat): set<int> { if d.Dep? then {depth} else {} }

  /** The artifact stands directly in the list. */
  predicate Direct(ds: seq<Dep>, a: Advisory) { ds != [] && (IsTarget(ds[0], a) || Direct(ds[1..], a)) }

  /**
   * No node that is not recorded directly brings in the artifact after a line of its own depth has been recorded: `seen`
   * are the depths recorded so far.
   */
  predicate Clean(ds: seq<Dep>, depth: nat, seen: set<int>, a: Advisory) {
    ds == [] || (CleanIn(ds[0], depth, seen, a) && Clean(ds[1..], depth, seen + RecordedIn(ds[0], depth), a))
  }

  predicate CleanIn(d: Dep, depth: nat, seen: set<int>, a: Advisory) {
    && (!d.Dep? && Direct(d.brings, a) ==> depth !in seen)
    && Clean(d.brings, depth + 1, seen + OwnDepth(d, depth), a)
  }

  /** The same occurrences, but perhaps for their parents. */
  ghost predicate Alike(os: seq<Occurrence>, ts: seq<Occurrence>) {
    && |os| == |ts|
    && forall i :: 0 <= i < |os| ==>
         os[i].version == ts[i].version && os[i].depth == ts[i].depth && os[i].vulnerable == ts[i].vulnerable
  }

  /**
   * The walk `w` went on to `x` over a part of the tree at `depth`: it found the occurrences `ts`, with these parents
   * exactly when `clean`; shallower ancestors are as before.
   */
  ghost predicate Walked(w: Walk, x: Result<Walk, TypeError>, depth: nat, ts: seq<Occurrence>, us: seq<string>,
                         recorded: set<int>, clean: bool)
  {
    && x.Ok? && w.occurrences <= x.value.occurrences && x.value.unreadable == w.unreadable + us
    && Alike(x.value.occurrences[|w.occurrences|..], ts)
    && (x.value.occurrences[|w.occurrences|..] == ts <==> clean)
    && x.value.stack.Keys == w.stack.Keys + recorded
    && forall k: int :: k <= depth ==> Parent(x.value.stack, k) == Parent(w.stack, k)
  }

  lemma {:induction false} WalkAppend(w: Walk, xs: seq<Line>, ys: seq<Line>, a: Advisory, width: nat)
    requires width > 0 && WalkLines(w, xs, a, width).Ok?
    ensures WalkLines(w, xs + ys, a, width) == WalkLines(WalkLines(w, xs, a, width).value, ys, a, width)
    decreases |xs|
  {
    if xs == [] {
      assert xs + ys == ys;
    } else {
      assert (xs + ys)[0] == xs[0] && (xs + ys)[1..] == xs[1..] + ys;
      WalkAppend(WalkLine(w, xs[0], a, width).value, xs[1..], ys, a, width);
    }
  }

  lemma OneLine(w: Walk, line: Line, a: Advisory, width: nat)
    requires width > 0
    ensures WalkLines(w, [line], a, width) == WalkLine(w, line, a, width)
  {
    assert [line][1..] == [];
  }

  lemma SplitEqual(a: seq<Occurrence>, b: seq<Occurrence>, c: seq<Occurrence>, d: seq<Occurrence>)
    requires |a| == |c|
    ensures a + b == c + d <==> a == c && b == d
  {
    if a + b == c + d {
      assert (a + b)[..|a|] == a && (c + d)[..|a|] == c && (a + b)[|a|..] == b && (c + d)[|a|..] == d;
    }
  }

  lemma WalkedThen(w: Walk, x: Walk, y: Result<Walk, TypeError>, depth: nat, deeper: nat, ts: seq<Occurrence>,
                   us: seq<string>, recorded: set<int>, clean: bool, more: seq<Occurrence>, rest: seq<string>,
                   also: set<int>, clear: bool)
    requires Walked(w, Ok(x), depth, ts, us, recorded, clean) && depth <= deeper
    requires Walked(x, y, deeper, more, rest, also, clear)
    ensures Walked(w, y, depth, ts + more, us + rest, recorded + also, clean && clear)
  {
    var os, ps := x.occurrences[|w.occurrences|..], y.value.occurrences[|x.occurrences|..];
    assert y.value.occurrences[|w.occurrences|..] == os + ps;
    SplitEqual(os, ps, ts, more);
  }

  /**
   * Walking the listing of trees finds each occurrence once, misses none, and invents none; and it names every true
   * parent exactly when the artifact is never brought in directly by an unrecorded node after a recorded line of the
   * same depth, which is then named instead.
   */
  lemma {:induction false} WalkListing(w: Walk, ds: seq<Dep>, depth: nat, parent: Option<string>, a: Advisory, width: nat)
    requires width > 0 && PlainRange(a) && Readable(ds, a)
    ensures Walked(w, WalkLines(w, Listing(ds, depth, width), a, width), depth,
                   Occurring(ds, depth, parent, a), Unreadable(ds, a), Recorded(ds, depth),
                   Clean(ds, depth, w.stack.Keys, a) && (Parent(w.stack, depth) == parent || !Direct(ds, a)))
    decreases ds
  {
    if ds == [] {
      assert w.occurrences[|w.occurrences|..] == [];
    } else {
      var first, rest := Listed(ds[0], depth, width), Listing(ds[1..], depth, width);
      var named := Parent(w.stack, depth) == parent;
      WalkListed(w, ds[0], depth, parent, a, width);
      var x := WalkLines(w, first, a, width).value;
      WalkAppend(w, first, rest, a, width);
      WalkListing(x, ds[1..], depth, parent, a, width);
      assert Parent(x.stack, depth) == Parent(w.stack, depth);
      WalkedThen(w, x, WalkLines(x, rest, a, width), depth, depth,
                 OccurringIn(ds[0], depth, parent, a), UnreadableIn(ds[0], a), RecordedIn(ds[0], depth),
                 CleanIn(ds[0], depth, w.stack.Keys, a) && (named || !IsTarget(ds[0], a)),
                 Occurring(ds[1..], depth, parent, a), Unreadable(ds[1..], a), Recorded(ds[1..], depth),
                 Clean(ds[1..], depth, x.stack.Keys, a) && (named || !Direct(ds[1..], a)));
    }
  }

  lemma WalkListed(w: Walk, d: Dep, depth: nat, parent: Option<string>, a: Advisory, width: nat)
    requires width > 0 && PlainRange(a) && ReadableDep(d, a)
    ensures Walked(w, WalkLines(w, Listed(d, depth, width), a, width), depth,
                   OccurringIn(d, depth, parent, a), UnreadableIn(d, a), RecordedIn(d, depth),
                   CleanIn(d, depth, w.stack.Keys, a) && (Parent(w.stack, depth) == parent || !IsTarget(d, a)))
    decreases d
  {
    var own, below := OwnLines(d, depth, width), Listing(d.brings, depth + 1, width);
    WalkOwn(w, d, depth, parent, a, width);
    var x := WalkLines(w, own, a, width).value;
    WalkAppend(w, own, below, a, width);
    WalkListing(x, d.brings, depth + 1, NameOf(d), a, width);
    WalkedThen(w, x, WalkLines(x, below, a, width), depth, depth + 1,
               OwnOccurrence(d, depth, parent, a), OwnUnreadable(d, a), OwnDepth(d, depth),
               Parent(w.stack, depth) == parent || !IsTarget(d, a),
               Occurring(d.brings, depth + 1, NameOf(d), a), Unreadable(d.brings, a), Recorded(d.brings, depth + 1),
               Clean(d.brings, depth + 1, x.stack.Keys, a) &&
               (Parent(x.stack, depth + 1) == NameOf(d) || !Direct(d.brings, a)));
  }

  lemma IndentDepth(depth: nat, width: nat)
    requires width > 0
    ensures depth * width >= 0 && depth * width / width == depth
  {
    MulEqual(depth, depth, width);
    DivUnique(depth * width, width, depth, 0);
  }

  /** The line of the node itself, and what it leaves on the stack. */
  lemma WalkOwn(w: Walk, d: Dep, depth: nat, parent: Option<string>, a: Advisory, width: nat)
    requires width > 0 && PlainRange(a) && ReadableDep(d, a)
    ensures var x := WalkLines(w, OwnLines(d, depth, width), a, width);
            && Walked(w, x, depth, OwnOccurrence(d, depth, parent, a), OwnUnreadable(d, a), OwnDepth(d, depth),
                      Parent(w.stack, depth) == parent || !IsTarget(d, a))
            && (d.Dep? ==> Parent(x.value.stack, depth + 1) == NameOf(d))
            && (!d.Dep? ==> x.value.stack == w.stack)
  {
    var lines := OwnLines(d, depth, width);
    if d.Skipped? {
      assert w.occurrences[|w.occurrences|..] == [];
    } else {
      OneLine(w, lines[0], a, width);
      if d.Dep? { WalkDep(w, d, depth, parent, a, width); } else { WalkOther(w, d, depth, a, width); }
    }
  }

  lemma WalkOther(w: Walk, d: Dep, depth: nat, a: Advisory, width: nat)
    requires width > 0 && (d.Constraint? || d.NoVersion?)
    ensures WalkLine(w, OwnLines(d, depth, width)[0], a, width) == Ok(w.(unreadable := w.unreadable + OwnUnreadable(d, a)))
    ensures w.occurrences[|w.occurrences|..] == []
  {
    assert w.unreadable + [] == w.unreadable;
  }

  /** The line of a dependency records its coordinate and, for the artifact, an occurrence with the parent on the stack. */
  lemma DepLine(w: Walk, d: Dep, depth: nat, a: Advisory, width: nat)
    requires d.Dep? && width > 0 && PlainRange(a) && ReadableDep(d, a)
    ensures WalkLine(w, OwnLines(d, depth, width)[0], a, width) ==
            Ok(Walk(w.stack[depth := Coordinate(d.group, d.name, d.version)],
                    w.occurrences + OwnOccurrence(d, depth, Parent(w.stack, depth), a), w.unreadable))
  {
    IndentDepth(depth, width);
    if IsTarget(d, a) {
      VulnerableExactlyInRange(a, d.version);
    } else {
      assert w.occurrences + [] == w.occurrences;
    }
  }

  lemma WalkDep(w: Walk, d: Dep, depth: nat, parent: Option<string>, a: Advisory, width: nat)
    requires d.Dep? && width > 0 && PlainRange(a) && ReadableDep(d, a)
    ensures var x := WalkLine(w, OwnLines(d, depth, width)[0], a, width);
            && Walked(w, x, depth, OwnOccurrence(d, depth, parent, a), [], {depth},
                      Parent(w.stack, depth) == parent || !IsTarget(d, a))
            && Parent(x.value.stack, depth + 1) == NameOf(d)
  {
    DepLine(w, d, depth, a, width);
    var own := OwnOccurrence(d, depth, Parent(w.stack, depth), a);
    assert (w.occurrences + own)[|w.occurrences|..] == own;
    assert w.stack[depth := Coordinate(d.group, d.name, d.version)].Keys == w.stack.Keys + {depth};
    assert w.unreadable + [] == w.unreadable;
  }

  const SIBLING := Dep("g", "n", "1", [])

  /** A dependency, and after it a project of the same build that brings in the artifact. */
  function AfterSibling(a: Advisory, version: string): seq<Dep> {
    [SIBLING, Skipped([Dep(a.group, a.name, version, [])])]
  }

  /** The artifact is then reported as brought in by the dependency before the project. */
  lemma SiblingIsNamed(a: Advisory, version: string, width: nat)
    requires width > 0 && PlainRange(a) && Plain(version) && !Concerns(a, "g", "n")
    ensures var r := WalkLines(NOTHING, Listing(AfterSibling(a, version), 0, width), a, width);
            r.Ok? && r.value.occurrences == [Occurrence(version, 1, Some("g:n:1"), InRangeOf(a, version))]
  {
    assert Coordinate("g", "n", "1") == "g:n:1";
    var target := Dep(a.group, a.name, version, []);
    var project := Skipped([target]);
    assert Readable([], a) && Listing([], 1, width) == [] && Listing([], 2, width) == [];
    var first, second := OwnLines(SIBLING, 0, width), OwnLines(target, 1, width);
    assert [target][1..] == [] && Listing([target], 1, width) == second;
    assert AfterSibling(a, version)[1..] == [project] && [project][1..] == [];
    assert Listing([project], 0, width) == second && Listing(AfterSibling(a, version), 0, width) == first + second;
    assert ReadableDep(target, a) && ReadableDep(SIBLING, a);
    OneLine(NOTHING, first[0], a, width);
    DepLine(NOTHING, SIBLING, 0, a, width);
    var w := WalkLines(NOTHING, first, a, width).value;
    WalkAppend(NOTHING, first, second, a, width);
    OneLine(w, second[0], a, width);
    DepLine(w, target, 1, a, width);
  }

  // ---- the gate ----

  /** A module whose tree could not be read, or the forest that its build tool printed. */
  datatype Module = Unmeasurable | Measured(trees: seq<Dep>, rootDepth: nat, width: nat)

  datatype TreeStatus = Pass | Unmeasured

  datatype ModuleTree = ModuleTree(status: TreeStatus, occurrences: seq<Occurrence>)

  predicate FairModule(m: Module, a: Advisory) { m.Measured? ==> m.width > 0 && Readable(m.trees, a) }

  /** The module is measured and nowhere names the artifact without a version. */
  predicate Judged(m: Module, a: Advisory) { m.Measured? && Unreadable(m.trees, a) == [] }

  /** The tree holds the artifact at a version in the advisory's range. */
  ghost predicate Reaches(m: Module, a: Advisory)
    requires PlainRange(a) && FairModule(m, a)
  {
    m.Measured? &&
    exists d :: d in Nodes(m.trees) && d.group == a.group && d.name == a.name && InRangeOf(a, d.version)
  }

  /** All dependencies of a forest. */
  ghost function Nodes(ds: seq<Dep>): (r: set<Dep>)
    ensures forall d :: d in r ==> d.Dep?
  {
    if ds == [] then {}
    else (if ds[0].Dep? then {ds[0]} else {}) + Nodes(ds[0].brings) + Nodes(ds[1..])
  }

  /** `collect_trees` for one module. */
  method CollectTree(m: Module, a: Advisory) returns (t: ModuleTree)
    requires PlainRange(a) && FairModule(m, a)
    ensures t.status == Pass <==> Judged(m, a)
    ensures m.Measured? ==>
              var ts := Occurring(m.trees, m.rootDepth, None, a);
              Alike(t.occurrences, ts) && (t.occurrences == ts <==> Clean(m.trees, m.rootDepth, {}, a))
  {
    match m
    case Unmeasurable => return ModuleTree(Unmeasured, []);
    case Measured(trees, rootDepth, width) =>
      var r := ParseTree(Listing(trees, rootDepth, width), a, width);
      WalkListing(NOTHING, trees, rootDepth, None, a, width);
      assert r.value.0[0..] == r.value.0 && [] + Unreadable(trees, a) == Unreadable(trees, a);
      assert NOTHING.stack.Keys == {} && Parent(NOTHING.stack, rootDepth) == None;
      return ModuleTree(if r.value.1 == [] then Pass else Unmeasured, r.value.0);
  }

  lemma {:induction false} VulnerableOccurs(ds: seq<Dep>, depth: nat, parent: Option<string>, a: Advisory)
    requires PlainRange(a) && Readable(ds, a)
    ensures (exists o :: o in Occurring(ds, depth, parent, a) && o.vulnerable) <==>
            exists d :: d in Nodes(ds) && d.group == a.group && d.name == a.name && InRangeOf(a, d.version)
    decreases ds
  {
    if ds == [] {
    } else {
      var d := ds[0];
      VulnerableOccurs(ds[1..], depth, parent, a);
      VulnerableOccurs(d.brings, depth + 1, NameOf(d), a);
      var own := OwnOccurrence(d, depth, parent, a);
      assert OccurringIn(d, depth, parent, a) == own + Occurring(d.brings, depth + 1, NameOf(d), a);
      if own != [] { assert own[0] in own; }
    }
  }

  /** Occurrences that are alike are as vulnerable. */
  lemma AlikeVulnerable(os: seq<Occurrence>, ts: seq<Occurrence>)
    requires Alike(os, ts)
    ensures (exists o :: o in os && o.vulnerable) <==> exists o :: o in ts && o.vulnerable
  {
    if o :| o in os && o.vulnerable {
      var i :| 0 <= i < |os| && os[i] == o;
      assert ts[i] in ts;
    }
    if o :| o in ts && o.vulnerable {
      var i :| 0 <= i < |ts| && ts[i] == o;
      assert os[i] in os;
    }
  }

  method HasVulnerable(os: seq<Occurrence>) returns (found: bool)
    ensures found <==> exists o :: o in os && o.vulnerable
  {
    found := false;
    for i := 0 to |os|
      invariant found <==> exists o :: o in os[..i] && o.vulnerable
    {
      assert os[..i + 1] == os[..i] + [os[i]];
      if os[i].vulnerable { found := true; }
    }
    assert os[..|os|] == os;
  }

  /**
   * `command_gate`: 2 when some module is not judged; otherwise 1 when some tree holds the artifact in the range; and
   * 0 exactly when every module is judged and no dependency anywhere lies in the range.
   */
  method Gate(modules: seq<Module>, a: Advisory) returns (code: int)
    requires PlainRange(a) && forall m :: m in modules ==> FairModule(m, a)
    ensures code == 2 <==> exists m :: m in modules && !Judged(m, a)
    ensures code == 0 <==> forall m :: m in modules ==> Judged(m, a) && !Reaches(m, a)
    ensures code == 0 || code == 1 || code == 2
  {
    var unmeasured, vulnerable := false, false;
    for i := 0 to |modules|
      invariant unmeasured <==> exists m :: m in modules[..i] && !Judged(m, a)
      invariant !unmeasured ==> (vulnerable <==> exists m :: m in modules[..i] && FairModule(m, a) && Reaches(m, a))
    {
      assert modules[..i + 1] == modules[..i] + [modules[i]];
      var tree := CollectTree(modules[i], a);
      var v := HasVulnerable(tree.occurrences);
      if tree.status != Pass {
        unmeasured := true;
      } else {
        VulnerableOccurs(modules[i].trees, modules[i].rootDepth, None, a);
        AlikeVulnerable(tree.occurrences, Occurring(modules[i].trees, modules[i].rootDepth, None, a));
      }
      if v { vulnerable := true; }
    }
    assert modules[..|modules|] == modules;
    return if unmeasured then 2 else if vulnerable then 1 else 0;
  }
}
