/** COBOL copybooks: from PIC clauses to byte slices (migration/job/ldm/copybook.py). */
module Copybook {
  import opened Bytes
  import opened Digits
  import opened Results
  import opened Texts

  datatype Usage = Display | Comp | Comp3

  /** The USAGE words the item pattern accepts. */
  datatype UsageWord = CompWord | Comp5Word | BinaryWord | Comp3Word | PackedWord

  /** A PIC clause as its pattern splits it; a missing repeat count stands for one. */
  datatype Pic =
    | PicX(repeat: Option<nat>)
    | Pic9(signed: bool, whole: Option<nat>, fraction: Option<Option<nat>>)
    | UnsupportedPic

  datatype ConfigError =
    | NonDisplayText | BadPic | CompTooLong | BadItem | UsageWithoutPic | OccursItem
    | Unterminated | NoItems | WrongLength(total: nat)

  datatype Layout = Layout(length: nat, isNumeric: bool, signed: bool, digits: nat, scale: nat)

  datatype Field = Field(name: string, pic: Pic, usage: Usage, offset: nat, layout: Layout) {
    function End(): nat { offset + layout.length }

    function Slice(record: seq<byte>): seq<byte> {
      var lo, hi := Min(offset, |record|), Min(End(), |record|);
      record[lo..hi]
    }
  }

  datatype Copybook = Copybook(fields: seq<Field>, recordLength: nat)

  function OrOne(n: Option<nat>): nat { if n.None? then 1 else n.value }

  function NormalizeUsage(w: Option<UsageWord>): Usage {
    match w
    case None => Display
    case Some(CompWord) | Some(Comp5Word) | Some(BinaryWord) => Comp
    case Some(Comp3Word) | Some(PackedWord) => Comp3
  }

  /** `_pic_layout`. */
  function PicLayout(pic: Pic, usage: Usage): Result<Layout, ConfigError> {
    match pic
    case UnsupportedPic => Err(BadPic)
    case PicX(n) => if usage != Display then Err(NonDisplayText) else Ok(Layout(OrOne(n), false, false, 0, 0))
    case Pic9(signed, n, v) =>
      var scale := if v.None? then 0 else OrOne(v.value);
      var digits := OrOne(n) + scale;
      match usage
      case Comp =>
        if digits <= 4 then Ok(Layout(2, true, signed, digits, scale))
        else if digits <= 9 then Ok(Layout(4, true, signed, digits, scale))
        else if digits <= 18 then Ok(Layout(8, true, signed, digits, scale))
        else Err(CompTooLong)
      case Comp3 => Ok(Layout((digits + 2) / 2, true, signed, digits, scale))
      case Display => Ok(Layout(digits, true, signed, digits, scale))
  }

  /** A layout always has room for its digits, with a nibble for the sign when packed. */
  lemma LayoutHoldsDigits(pic: Pic, usage: Usage)
    requires PicLayout(pic, usage).Ok?
    ensures var l := PicLayout(pic, usage).value;
            && (l.isNumeric <==> pic.Pic9?)
            && (!l.isNumeric ==> usage == Display)
            && l.scale <= l.digits
            && (l.isNumeric && usage == Display ==> l.length == l.digits)
            && (usage == Comp3 ==> l.digits <= 2 * l.length - 1 <= l.digits + 1)
            && (usage == Comp ==> l.digits <= 18 && Pow10(l.digits) <= Pow256(l.length) / 2)
  {
    var l := PicLayout(pic, usage).value;
    if usage == Comp {
      assert Pow10(4) == 10_000 && Pow256(2) == 65_536;
      assert Pow10(8) == 10_000 * Pow10(4) by { Pow10Add(4, 4); }
      assert Pow10(9) == 1_000_000_000;
      assert Pow256(4) == 65_536 * Pow256(2);
      assert Pow10(18) == 1_000_000_000 * Pow10(9) by { Pow10Add(9, 9); }
      assert Pow256(6) == 65_536 * Pow256(4);
      assert Pow256(8) == 65_536 * Pow256(6);
      Pow10Monotone(l.digits, 4);
      Pow10Monotone(l.digits, 9);
      Pow10Monotone(l.digits, 18);
    }
  }

  /** Every number of so many digits, of either sign, fits `w` bytes in two's complement. */
  ghost predicate HoldsEvery(w: nat, digits: nat) {
    forall n: int :: -(Pow10(digits) as int) < n < Pow10(digits) ==> ToSigned(n, w).Ok?
  }

  lemma SignedFits(n: int, w: nat)
    ensures ToSigned(n, w).Ok? <==> -(Pow256(w) as int) <= 2 * n < Pow256(w)
  {
  }

  lemma HoldsEveryExactly(w: nat, digits: nat)
    requires w > 0
    ensures HoldsEvery(w, digits) <==> 2 * Pow10(digits) <= Pow256(w)
  {
    var p, m := Pow10(digits), Pow256(w);
    var top := p - 1;
    SignedFits(top, w);
    assert m % 2 == 0;
    if HoldsEvery(w, digits) { assert ToSigned(top, w).Ok?; }
    if 2 * p <= m {
      forall n: int | -(p as int) < n < p
        ensures ToSigned(n, w).Ok?
      {
        SignedFits(n, w);
      }
    }
  }

  lemma BinaryRanges()
    ensures Pow256(2) == 65_536 && Pow256(4) == 0x1_0000_0000 && Pow256(8) == 0x1_0000_0000_0000_0000
    ensures Pow10(4) == 10_000 && Pow10(5) == 100_000 && Pow10(9) == 1_000_000_000
    ensures Pow10(10) == 10_000_000_000 && Pow10(18) == 1_000_000_000_000_000_000
    ensures Pow10(19) == 10_000_000_000_000_000_000
  {
    assert Pow256(4) == 65_536 * Pow256(2);
    assert Pow256(6) == 65_536 * Pow256(4) && Pow256(8) == 65_536 * Pow256(6);
    Pow10Add(9, 9);
  }

  function DigitsOf(pic: Pic): (d: (nat, nat)) {
    match pic
    case Pic9(_, Some(n), None) => (n, 0)
    case Pic9(_, Some(n), Some(Some(m))) => (n + m, m)
    case Pic9(_, Some(n), Some(None)) => (n + 1, 1)
    case Pic9(_, None, None) => (1, 0)
    case Pic9(_, None, Some(Some(m))) => (1 + m, m)
    case Pic9(_, None, Some(None)) => (2, 1)
    case _ => (0, 0)
  }

  /**
   * A binary field has the least of two, four and eight bytes whose signed range holds every number of its
   * digits, and is refused exactly when eight bytes do not.
   */
  lemma BinaryLayoutLeast(pic: Pic)
    requires pic.Pic9?
    ensures var (digits, scale) := DigitsOf(pic);
            PicLayout(pic, Comp) ==
            if HoldsEvery(2, digits) then Ok(Layout(2, true, pic.signed, digits, scale))
            else if HoldsEvery(4, digits) then Ok(Layout(4, true, pic.signed, digits, scale))
            else if HoldsEvery(8, digits) then Ok(Layout(8, true, pic.signed, digits, scale))
            else Err(CompTooLong)
  {
    var (digits, scale) := DigitsOf(pic);
    BinaryRanges();
    forall w | w == 2 || w == 4 || w == 8
      ensures HoldsEvery(w, digits) <==> 2 * Pow10(digits) <= Pow256(w)
    {
      HoldsEveryExactly(w, digits);
    }
    Pow10Monotone(digits, 4);
    Pow10Monotone(5, digits);
    Pow10Monotone(digits, 9);
    Pow10Monotone(10, digits);
    Pow10Monotone(digits, 18);
    Pow10Monotone(19, digits);
  }

  /** A packed field has the least number of bytes whose nibbles hold its digits and a sign. */
  lemma PackedLayoutLeast(pic: Pic, w: nat)
    requires pic.Pic9?
    ensures var (digits, scale) := DigitsOf(pic);
            PicLayout(pic, Comp3) == Ok(Layout(w, true, pic.signed, digits, scale)) <==>
            digits + 1 <= 2 * w && forall u: nat :: u < w ==> 2 * u < digits + 1
  {
    var (digits, scale) := DigitsOf(pic);
    if digits + 1 <= 2 * w && forall u: nat :: u < w ==> 2 * u < digits + 1 {
      assert w > 0;
      var u := w - 1;
      assert 2 * u < digits + 1;
    }
  }

  /** A display field has one byte for each digit; text is never binary or packed. */
  lemma DisplayLayout(pic: Pic, usage: Usage)
    ensures pic.Pic9? ==>
              var (digits, scale) := DigitsOf(pic);
              PicLayout(pic, Display) == Ok(Layout(digits, true, pic.signed, digits, scale))
    ensures pic.PicX? ==>
              && (PicLayout(pic, usage).Ok? <==> usage == Display)
              && forall l :: PicLayout(pic, Display) == Ok(l) <==>
                   l == Layout(match pic.repeat case Some(n) => n case None => 1, false, false, 0, 0)
    ensures PicLayout(UnsupportedPic, usage) == Err(BadPic)
  {
  }

  // ---- statements ----

  predicate EndsStatement(buf: string) { buf != "" && buf[|buf| - 1] == '.' }

  function Continued(buf: string, line: string): string { Strip(buf + " " + Strip(line)) }

  /** Statements of the source lines in order, and the text left over after the last full stop. */
  function Statements(lines: seq<string>): (seq<string>, string) {
    if lines == [] then ([], "")
    else
      var done := Statements(lines[..|lines| - 1]);
      var buf := Continued(done.1, lines[|lines| - 1]);
      if EndsStatement(buf) then (done.0 + [buf], "") else (done.0, buf)
  }

  /** A line that stays as it is when stripped. */
  ghost predicate IsStripped(line: string) { line != "" && !IsSpace(line[0]) && !IsSpace(line[|line| - 1]) }

  lemma StripKeeps(line: string)
    requires IsStripped(line)
    ensures Strip(line) == line && Strip(" " + line) == line && Strip("" + " " + line) == line
  {
    assert (" " + line)[1..] == line && "" + " " + line == " " + line;
  }

  /** The last character of a text. */
  ghost predicate EndsIn(s: string, c: char) { s != "" && s[|s| - 1] == c }

  /** Lines of one statement: the full stop ends the last one, and no other. */
  ghost predicate OneStatement(lines: seq<string>) {
    lines != [] && forall i :: 0 <= i < |lines| ==> IsStripped(lines[i]) && (EndsIn(lines[i], '.') <==> i == |lines| - 1)
  }

  lemma JoinPush(parts: seq<string>, last: string)
    requires parts != []
    ensures Join(parts + [last], ' ') == Join(parts, ' ') + (" " + last)
    decreases |parts|
  {
    if |parts| == 1 {
      assert (parts + [last])[1..] == [last];
    } else {
      assert (parts + [last])[1..] == parts[1..] + [last];
      JoinPush(parts[1..], last);
    }
  }

  lemma {:induction false} JoinStripped(parts: seq<string>)
    requires parts != [] && forall p :: p in parts ==> IsStripped(p)
    ensures IsStripped(Join(parts, ' '))
    ensures EndsStatement(Join(parts, ' ')) <==> EndsStatement(parts[|parts| - 1])
  {
    assert parts[0] in parts;
    if |parts| > 1 {
      assert forall p :: p in parts[1..] ==> p in parts;
      JoinStripped(parts[1..]);
      var j := Join(parts[1..], ' ');
      assert Join(parts, ' ') == parts[0] + ([' '] + j);
    }
  }

  lemma ContinuedJoins(parts: seq<string>, last: string)
    requires (forall p :: p in parts ==> IsStripped(p)) && IsStripped(last)
    ensures Continued(Join(parts, ' '), last) == Join(parts + [last], ' ')
    ensures EndsStatement(Join(parts + [last], ' ')) <==> EndsStatement(last)
    ensures Join(parts + [last], ' ') != ""
  {
    var all := parts + [last];
    StripKeeps(last);
    assert forall p :: p in all ==> IsStripped(p);
    JoinStripped(all);
    if parts == [] {
      assert all == [last];
    } else {
      JoinPush(parts, last);
      assert Join(parts, ' ') + " " + last == Join(all, ' ');
      StripKeeps(Join(all, ' '));
    }
  }

  lemma PushLine(lines: seq<string>, line: string)
    ensures var done := Statements(lines);
            var buf := Continued(done.1, line);
            Statements(lines + [line]) == if EndsStatement(buf) then (done.0 + [buf], "") else (done.0, buf)
  {
    assert (lines + [line])[..|lines|] == lines;
  }

  /** The lines of an unfinished statement are kept, joined by blanks. */
  lemma {:induction false} Unfinished(lines: seq<string>, before: seq<string>, part: seq<string>)
    requires Statements(lines) == (before, "")
    requires (forall l :: l in part ==> IsStripped(l) && !EndsStatement(l))
    ensures Statements(lines + part) == (before, Join(part, ' '))
  {
    if part == [] {
      assert lines + part == lines;
    } else {
      var front, last := part[..|part| - 1], part[|part| - 1];
      assert part == front + [last] && lines + part == (lines + front) + [last];
      Unfinished(lines, before, front);
      ContinuedJoins(front, last);
      PushLine(lines + front, last);
    }
  }

  /** A statement may be spread over lines: they are joined by single blanks, and the full stop ends it. */
  lemma StatementOfLines(lines: seq<string>, before: seq<string>, part: seq<string>)
    requires Statements(lines) == (before, "") && OneStatement(part)
    ensures Statements(lines + part) == (before + [Join(part, ' ')], "")
  {
    var front, last := part[..|part| - 1], part[|part| - 1];
    assert part == front + [last] && lines + part == (lines + front) + [last];
    forall l | l in front
      ensures IsStripped(l) && !EndsStatement(l)
    {
      var i :| 0 <= i < |front| && front[i] == l;
      assert part[i] == l;
    }
    Unfinished(lines, before, front);
    ContinuedJoins(front, last);
    PushLine(lines + front, last);
  }

  /** The groups of the item pattern. */
  datatype Item = Item(level: nat, name: string, pic: Option<Pic>, usage: Option<UsageWord>, occurs: bool)

  datatype Parsed = GroupItem | Elementary(name: string, pic: Pic, usage: Usage, layout: Layout)

  /** What one statement contributes; `item` stands for the item pattern. */
  function ParseStatement(stmt: string, item: string -> Option<Item>): Result<Parsed, ConfigError> {
    match item(stmt)
    case None => Err(BadItem)
    case Some(m) =>
      match m.pic
      case None =>
        if m.level == 1 || m.level == 66 || m.level == 77 || m.level == 88 || m.usage.None? then Ok(GroupItem)
        else Err(UsageWithoutPic)
      case Some(pic) =>
        if m.occurs then Err(OccursItem)
        else
          var usage := NormalizeUsage(m.usage);
          match PicLayout(pic, usage)
          case Err(e) => Err(e)
          case Ok(l) => Ok(Elementary(m.name, pic, usage, l))
  }

  /**
   * An item without a PIC clause lays out nothing; it is refused exactly when it has a usage and its level is none of
   * the four that stand alone. One with a PIC clause is refused when it repeats, and otherwise laid out by its usage.
   */
  lemma ItemsExactly(stmt: string, item: string -> Option<Item>)
    ensures item(stmt).None? <==> ParseStatement(stmt, item) == Err(BadItem)
    ensures item(stmt).Some? && item(stmt).value.pic.None? ==>
              var m := item(stmt).value;
              ParseStatement(stmt, item) ==
              if m.usage.Some? && m.level !in {1, 66, 77, 88} then Err(UsageWithoutPic) else Ok(GroupItem)
    ensures item(stmt).Some? && item(stmt).value.pic.Some? ==>
              var m := item(stmt).value;
              var usage := if m.usage in {Some(Comp3Word), Some(PackedWord)} then Comp3
                           else if m.usage.Some? then Comp else Display;
              var l := PicLayout(m.pic.value, usage);
              && (m.occurs ==> ParseStatement(stmt, item) == Err(OccursItem))
              && (!m.occurs && l.Err? ==> ParseStatement(stmt, item) == Err(l.error))
              && (!m.occurs && l.Ok? ==> ParseStatement(stmt, item) == Ok(Elementary(m.name, m.pic.value, usage, l.value)))
  {
  }

  /** The fields of a list of statements, laid end to end. */
  function FieldsOf(stmts: seq<string>, item: string -> Option<Item>): Result<(seq<Field>, nat), ConfigError> {
    if stmts == [] then Ok(([], 0))
    else
      var done :- FieldsOf(stmts[..|stmts| - 1], item);
      var p :- ParseStatement(stmts[|stmts| - 1], item);
      match p
      case GroupItem => Ok(done)
      case Elementary(name, pic, usage, l) => Ok((done.0 + [Field(name, pic, usage, done.1, l)], done.1 + l.length))
  }

  function Finish(fields: seq<Field>, rest: string, total: nat, expected: Option<nat>): Result<Copybook, ConfigError> {
    if rest != "" then Err(Unterminated)
    else if fields == [] then Err(NoItems)
    else if expected.Some? && total != expected.value then Err(WrongLength(total))
    else Ok(Copybook(fields, total))
  }

  function Parse(lines: seq<string>, item: string -> Option<Item>, expected: Option<nat>): Result<Copybook, ConfigError> {
    var (stmts, rest) := Statements(lines);
    var done :- FieldsOf(stmts, item);
    Finish(done.0, rest, done.1, expected)
  }

  lemma {:induction false} FieldsOfPrefix(stmts: seq<string>, more: seq<string>, item: string -> Option<Item>)
    requires FieldsOf(stmts, item).Err?
    ensures FieldsOf(stmts + more, item) == FieldsOf(stmts, item)
  {
    if more == [] {
      assert stmts + more == stmts;
    } else {
      FieldsOfPrefix(stmts, more[..|more| - 1], item);
      assert (stmts + more)[..|stmts + more| - 1] == stmts + more[..|more| - 1];
    }
  }

  lemma {:induction false} StatementsPrefix(lines: seq<string>, k: nat)
    requires k <= |lines|
    ensures Statements(lines[..k]).0 <= Statements(lines).0
    decreases |lines| - k
  {
    if k < |lines| {
      StatementsPrefix(lines, k + 1);
      assert lines[..k + 1][..k] == lines[..k];
    } else {
      assert lines[..k] == lines;
    }
  }

  lemma NextLine(lines: seq<string>, k: nat)
    requires k < |lines|
    ensures var done := Statements(lines[..k]);
            var buf := Continued(done.1, lines[k]);
            Statements(lines[..k + 1]) == if EndsStatement(buf) then (done.0 + [buf], "") else (done.0, buf)
  {
    assert lines[..k + 1][..k] == lines[..k];
  }

  lemma NextStatement(stmts: seq<string>, stmt: string, item: string -> Option<Item>)
    requires FieldsOf(stmts, item).Ok?
    ensures var done := FieldsOf(stmts, item).value;
            FieldsOf(stmts + [stmt], item) ==
            match ParseStatement(stmt, item)
            case Err(e) => Err(e)
            case Ok(GroupItem) => Ok(done)
            case Ok(Elementary(name, pic, usage, l)) =>
              Ok((done.0 + [Field(name, pic, usage, done.1, l)], done.1 + l.length))
  {
    var all := stmts + [stmt];
    assert all[..|all| - 1] == stmts && all[|all| - 1] == stmt;
  }

  /** The first statement that fails decides the outcome. */
  lemma FirstFailure(lines: seq<string>, k: nat, item: string -> Option<Item>, expected: Option<nat>)
    requires k <= |lines| && FieldsOf(Statements(lines[..k]).0, item).Err?
    ensures Parse(lines, item, expected) == Err(FieldsOf(Statements(lines[..k]).0, item).error)
  {
    var stmts, all := Statements(lines[..k]).0, Statements(lines).0;
    StatementsPrefix(lines, k);
    FieldsOfPrefix(stmts, all[|stmts|..], item);
    assert stmts + all[|stmts|..] == all;
  }

  /** `parse_copybook` over the comment-free source lines. */
  method ParseCopybook(lines: seq<string>, item: string -> Option<Item>, expected: Option<nat>)
    returns (r: Result<Copybook, ConfigError>)
    ensures r == Parse(lines, item, expected)
  {
    var fields: seq<Field> := [];
    var offset := 0;
    var buf := "";
    for k := 0 to |lines|
      invariant buf == Statements(lines[..k]).1
      invariant FieldsOf(Statements(lines[..k]).0, item) == Ok((fields, offset))
    {
      ghost var stmts := Statements(lines[..k]).0;
      NextLine(lines, k);
      buf := Continued(buf, lines[k]);
      if !EndsStatement(buf) { continue; }
      var stmt := buf;
      buf := "";
      NextStatement(stmts, stmt, item);
      match ParseStatement(stmt, item)
      case Err(e) =>
        FirstFailure(lines, k + 1, item, expected);
        return Err(e);
      case Ok(GroupItem) =>
      case Ok(Elementary(name, pic, usage, l)) =>
        fields := fields + [Field(name, pic, usage, offset, l)];
        offset := offset + l.length;
    }
    assert lines[..|lines|] == lines;
    r := Finish(fields, buf, offset, expected);
  }

  /** Where the fields before index `i` end. */
  function EndBefore(fields: seq<Field>, i: nat): nat
    requires i <= |fields|
  {
    if i == 0 then 0 else fields[i - 1].End()
  }

  ghost predicate Laid(fields: seq<Field>, i: nat)
    requires i < |fields|
  {
    fields[i].offset == EndBefore(fields, i)
  }

  /** A field has the layout of its clause. */
  predicate WellFormed(f: Field) { PicLayout(f.pic, f.usage) == Ok(f.layout) }

  /** Fields lie end to end from the start of the record to its length, each with the layout of its clause. */
  ghost predicate Tiles(fields: seq<Field>, total: nat) {
    && (forall f :: f in fields ==> WellFormed(f))
    && (forall i :: 0 <= i < |fields| ==> Laid(fields, i))
    && total == EndBefore(fields, |fields|)
  }

  lemma TilesExtended(fields: seq<Field>, total: nat, f: Field)
    requires Tiles(fields, total) && f.offset == total && WellFormed(f)
    ensures Tiles(fields + [f], f.End())
  {
    var all := fields + [f];
    forall i | 0 <= i < |all|
      ensures Laid(all, i)
    {
      if i < |fields| {
        assert Laid(fields, i);
        assert i > 0 ==> all[i - 1] == fields[i - 1];
      }
    }
  }

  lemma {:induction false} FieldsTile(stmts: seq<string>, item: string -> Option<Item>)
    requires FieldsOf(stmts, item).Ok?
    ensures Tiles(FieldsOf(stmts, item).value.0, FieldsOf(stmts, item).value.1)
  {
    if stmts == [] {
    } else {
      var front, stmt := stmts[..|stmts| - 1], stmts[|stmts| - 1];
      FieldsTile(front, item);
      NextStatement(front, stmt, item);
      assert stmts == front + [stmt];
      var done := FieldsOf(front, item).value;
      match ParseStatement(stmt, item)
      case Ok(Elementary(name, pic, usage, l)) => TilesExtended(done.0, done.1, Field(name, pic, usage, done.1, l));
      case _ =>
    }
  }

  /** Every copybook that parses tiles its record, whatever its lines. */
  lemma ParsedCopybookTiles(lines: seq<string>, item: string -> Option<Item>, expected: Option<nat>)
    requires Parse(lines, item, expected).Ok?
    ensures var c := Parse(lines, item, expected).value;
            && Tiles(c.fields, c.recordLength) && c.fields != []
            && (expected.Some? ==> c.recordLength == expected.value)
  {
    FieldsTile(Statements(lines).0, item);
  }

  lemma {:induction false} FieldsInOrder(fields: seq<Field>, i: nat, j: nat)
    requires forall k :: 0 <= k < |fields| ==> Laid(fields, k)
    requires i < j <= |fields|
    ensures fields[i].End() <= EndBefore(fields, j)
    decreases j
  {
    if i + 1 == j {
    } else {
      FieldsInOrder(fields, i, j - 1);
      assert Laid(fields, j - 1);
    }
  }

  /** Every byte of the record belongs to a field, and to one field only. */
  lemma {:induction false} EachByteOneField(fields: seq<Field>, total: nat, p: nat) returns (i: nat)
    requires Tiles(fields, total) && p < total
    ensures i < |fields| && fields[i].offset <= p < fields[i].End()
    ensures forall j :: 0 <= j < |fields| && fields[j].offset <= p < fields[j].End() ==> j == i
  {
    i := |fields| - 1;
    assert Laid(fields, i);
    while p < fields[i].offset
      invariant i < |fields| && p < fields[i].End() && Laid(fields, i)
      decreases i
    {
      assert Laid(fields, i - 1);
      i := i - 1;
    }
    forall j | 0 <= j < |fields| && fields[j].offset <= p < fields[j].End()
      ensures j == i
    {
      assert Laid(fields, j);
      if j < i {
        FieldsInOrder(fields, j, i);
      } else if i < j {
        FieldsInOrder(fields, i, j);
      }
    }
  }
}
