/** Nested routing blocks recovered from a brace stream (security/dast/harness/route_inventory.py). */
module Routing {
  import opened Results
  import opened Texts

  // ---- joining path parts ----

  function LstripSlash(s: string): string { if s != "" && s[0] == '/' then LstripSlash(s[1..]) else s }

  function RstripSlash(s: string): string {
    if s != "" && s[|s| - 1] == '/' then RstripSlash(s[..|s| - 1]) else s
  }

  /** `part.strip("/")`. */
  function StripSlash(s: string): string { RstripSlash(LstripSlash(s)) }

  /** The stripped parts that are not empty. */
  function Segments(parts: seq<string>): seq<string> {
    if parts == [] then [] else Kept(parts[0]) + Segments(parts[1..])
  }

  function Kept(part: string): seq<string> { if StripSlash(part) != "" then [StripSlash(part)] else [] }

  /** `_join`. */
  function JoinPath(parts: seq<string>): string {
    var joined := Join(Segments(parts), '/');
    if joined != "" then "/" + joined else "/"
  }

  /** Neither empty nor with a slash at either end. */
  predicate Trim(s: string) { s != "" && s[0] != '/' && s[|s| - 1] != '/' }

  lemma {:induction false} RstripEnds(s: string)
    ensures RstripSlash(s) == "" || RstripSlash(s)[|RstripSlash(s)| - 1] != '/'
    ensures RstripSlash(s) <= s
  {
    if s == "" || s[|s| - 1] != '/' {
    } else {
      RstripEnds(s[..|s| - 1]);
    }
  }

  lemma {:induction false} LstripStarts(s: string)
    ensures LstripSlash(s) == "" || LstripSlash(s)[0] != '/'
  {
    if s == "" || s[0] != '/' {
    } else {
      LstripStarts(s[1..]);
    }
  }

  lemma StripTrims(s: string)
    ensures StripSlash(s) == "" || Trim(StripSlash(s))
    ensures Trim(s) ==> StripSlash(s) == s && StripSlash("/" + s) == s
    ensures StripSlash("/") == ""
  {
    LstripStarts(s);
    RstripEnds(LstripSlash(s));
    assert ("/" + s)[1..] == s;
  }

  ghost predicate AllTrim(parts: seq<string>) { forall p :: p in parts ==> Trim(p) }

  lemma {:induction false} SegmentsTrim(parts: seq<string>)
    ensures AllTrim(Segments(parts))
  {
    if parts == [] {
    } else {
      StripTrims(parts[0]);
      SegmentsTrim(parts[1..]);
    }
  }

  lemma Regroup<T>(x: seq<T>, y: seq<T>, z: seq<T>)
    ensures x + (y + z) == (x + y) + z
  {
  }

  lemma {:induction false} SegmentsAppend(a: seq<string>, b: seq<string>)
    ensures Segments(a + b) == Segments(a) + Segments(b)
  {
    if a == [] {
      assert a + b == b;
    } else {
      SegmentsAppend(a[1..], b);
      assert (a + b)[0] == a[0] && (a + b)[1..] == a[1..] + b;
      Regroup(Kept(a[0]), Segments(a[1..]), Segments(b));
    }
  }

  lemma {:induction false} JoinTrims(parts: seq<string>)
    requires AllTrim(parts) && parts != []
    ensures Trim(Join(parts, '/'))
  {
    if |parts| == 1 {
    } else {
      assert parts[1] in parts;
      JoinTrims(parts[1..]);
    }
    assert parts[0] in parts;
  }

  lemma {:induction false} JoinAppend(a: seq<string>, b: seq<string>)
    requires a != [] && b != []
    ensures Join(a + b, '/') == Join(a, '/') + ("/" + Join(b, '/'))
  {
    if |a| == 1 {
      assert (a + b)[1..] == b;
    } else {
      JoinAppend(a[1..], b);
      assert (a + b)[1..] == a[1..] + b;
      assert Join(a + b, '/') == a[0] + ("/" + (Join(a[1..], '/') + ("/" + Join(b, '/'))));
      assert Join(a, '/') + ("/" + Join(b, '/')) == a[0] + ("/" + (Join(a[1..], '/') + ("/" + Join(b, '/'))));
    }
  }

  /** A joined path contributes to a further join what its parts would. */
  lemma JoinedSegment(parts: seq<string>)
    ensures Segments([JoinPath(parts)]) == AsOne(Segments(parts))
  {
    SegmentsTrim(parts);
    var path := JoinPath(parts);
    assert [path][1..] == [];
    if Segments(parts) == [] {
      StripTrims("");
    } else {
      JoinTrims(Segments(parts));
      StripTrims(Join(Segments(parts), '/'));
    }
  }

  /** The parts joined to one, when there are any. */
  function AsOne(parts: seq<string>): seq<string> { if parts == [] then [] else [Join(parts, '/')] }

  lemma JoinTwo(s: string, t: string)
    ensures Join([s, t], '/') == s + ("/" + t)
  {
    assert [s, t][1..] == [t];
  }

  lemma JoinAsOne(a: seq<string>, b: seq<string>)
    ensures Join(AsOne(a) + AsOne(b), '/') == Join(a + b, '/')
  {
    if a == [] {
      assert a + b == b && AsOne(a) + AsOne(b) == AsOne(b);
    } else if b == [] {
      assert a + b == a && AsOne(a) + AsOne(b) == AsOne(a);
    } else {
      JoinAppend(a, b);
      assert AsOne(a) + AsOne(b) == [Join(a, '/'), Join(b, '/')];
      JoinTwo(Join(a, '/'), Join(b, '/'));
    }
  }

  /** `_join` is associative: joining two joined lists of parts is joining all parts. */
  lemma JoinAssociative(a: seq<string>, b: seq<string>)
    ensures JoinPath([JoinPath(a), JoinPath(b)]) == JoinPath(a + b)
  {
    JoinedSegment(a);
    JoinedSegment(b);
    SegmentsAppend([JoinPath(a)], [JoinPath(b)]);
    SegmentsAppend(a, b);
    JoinAsOne(Segments(a), Segments(b));
    assert [JoinPath(a), JoinPath(b)] == [JoinPath(a)] + [JoinPath(b)];
  }

  /** Blank parts do not matter. */
  lemma SameSegments(a: seq<string>, b: seq<string>)
    requires Segments(a) == Segments(b)
    ensures JoinPath(a) == JoinPath(b)
  {
  }

  // ---- string literals ----

  /**
   * The length of the rest of a string literal whose opening quote stands before `s`, its closing quote included; a
   * backslash takes the next character with it, and a literal does not cross the end of a line.
   */
  function LiteralRest(s: string): (n: Option<nat>)
    ensures n.Some? ==> 0 < n.value <= |s|
    decreases |s|
  {
    if s == "" || s[0] == '\n' then None
    else if s[0] == '"' then Some(1)
    else
      var k := if s[0] == '\\' then 2 else 1;
      if |s| < k || (k == 2 && s[1] == '\n') then None
      else
        match LiteralRest(s[k..])
        case None => None
        case Some(n) => Some(k + n)
  }

  /** A text that starts with a literal. */
  predicate LeadsLiteral(s: string) { s != "" && s[0] == '"' && LiteralRest(s[1..]).Some? }

  /** The length of the literal, or of the single other character, that a text starts with. */
  function LeadLength(s: string): (n: nat)
    requires s != ""
    ensures 0 < n <= |s|
  {
    if LeadsLiteral(s) then 1 + LiteralRest(s[1..]).value else 1
  }

  /** What becomes of that literal or character. */
  function Lead(s: string): (r: string)
    requires s != ""
    ensures |r| == LeadLength(s)
  {
    if LeadsLiteral(s) then seq(LeadLength(s), _ => ' ') else s[..1]
  }

  /** The text with its literals blanked, every position kept. */
  function Blanked(s: string): (r: string)
    ensures |r| == |s|
    decreases |s|
  {
    if s == "" then "" else Lead(s) + Blanked(s[LeadLength(s)..])
  }

  /** Every quote of the text opens or closes a literal that lies within it. */
  predicate Closed(s: string)
    decreases |s|
  {
    s == "" || ((s[0] == '"' ==> LeadsLiteral(s)) && Closed(s[LeadLength(s)..]))
  }

  lemma {:induction false} LiteralRestAppend(a: string, b: string)
    requires LiteralRest(a).Some?
    ensures LiteralRest(a + b) == LiteralRest(a)
    decreases |a|
  {
    if a[0] == '"' {
    } else {
      var k := if a[0] == '\\' then 2 else 1;
      LiteralRestAppend(a[k..], b);
      assert (a + b)[k..] == a[k..] + b;
    }
  }

  /** Text whose first quote is closed starts the same whatever follows it. */
  lemma LeadAppend(a: string, b: string)
    requires a != "" && (a[0] == '"' ==> LeadsLiteral(a))
    ensures LeadLength(a + b) == LeadLength(a) && Lead(a + b) == Lead(a)
    ensures LeadsLiteral(a + b) <==> LeadsLiteral(a)
    ensures (a + b)[0] == a[0] && (a + b)[LeadLength(a)..] == a[LeadLength(a)..] + b
  {
    assert (a + b)[1..] == a[1..] + b && (a + b)[..1] == a[..1];
    if a[0] == '"' { LiteralRestAppend(a[1..], b); }
  }

  /** Text whose literals are closed is blanked on its own. */
  lemma {:induction false} BlankedAppend(a: string, b: string)
    requires Closed(a)
    ensures Blanked(a + b) == Blanked(a) + Blanked(b)
    decreases |a|
  {
    if a == "" {
      assert a + b == b;
    } else {
      LeadAppend(a, b);
      var after := a[LeadLength(a)..];
      BlankedAppend(after, b);
      Regroup(Lead(a), Blanked(after), Blanked(b));
    }
  }

  lemma {:induction false} ClosedAppend(a: string, b: string)
    requires Closed(a) && Closed(b)
    ensures Closed(a + b)
    decreases |a|
  {
    if a == "" {
      assert a + b == b;
    } else {
      LeadAppend(a, b);
      ClosedAppend(a[LeadLength(a)..], b);
    }
  }

  lemma {:induction false} NoQuotes(s: string)
    requires '"' !in s
    ensures Closed(s) && Blanked(s) == s
    decreases |s|
  {
    if s == "" {
    } else {
      assert s[0] in s && !LeadsLiteral(s);
      NoQuotes(s[1..]);
      assert s == s[..1] + s[1..];
    }
  }

  lemma {:induction false} RestOfPath(path: string)
    requires '"' !in path && '\\' !in path && '\n' !in path
    ensures LiteralRest(path + "\"") == Some(|path| + 1)
    decreases |path|
  {
    if path == "" {
    } else {
      assert path[0] in path;
      RestOfPath(path[1..]);
      assert (path + "\"")[1..] == path[1..] + "\"";
    }
  }

  /** A quoted path is blanked whole, so a path parameter in braces does not count. */
  lemma PathBlanked(path: string)
    requires '"' !in path && '\\' !in path && '\n' !in path
    ensures var literal := "\"" + (path + "\"");
            Closed(literal) && Blanked(literal) == seq(|literal|, _ => ' ')
  {
    RestOfPath(path);
    var literal := "\"" + (path + "\"");
    assert literal[1..] == path + "\"";
    assert literal[LeadLength(literal)..] == "";
  }

  lemma BraceAlone(c: char)
    requires c == '{' || c == '}'
    ensures Closed([c]) && Blanked([c]) == [c]
  {
    assert [c][1..] == "" && [c][..1] == [c];
    assert !LeadsLiteral([c]);
  }

  // ---- the scan ----

  /** What precedes a brace: `route("…")`, or a method with an optional path. */
  datatype Opener = RouteOpener(path: string) | MethodOpener(verb: string, path: string)

  datatype Route = Route(verb: string, path: string)

  /** The routes found and the open blocks. */
  datatype Scan = Scan(routes: seq<Route>, stack: seq<string>)

  function ScanChar(s: Scan, c: char, opener: Option<Opener>, normalize: string -> string): Scan {
    if c == '{' then
      match opener
      case Some(MethodOpener(verb, path)) =>
        Scan(s.routes + [Route(verb, normalize(JoinPath(s.stack + [path])))], s.stack + [""])
      case Some(RouteOpener(path)) => Scan(s.routes, s.stack + [path])
      case None => Scan(s.routes, s.stack + [""])
    else if c == '}' && s.stack != [] then Scan(s.routes, s.stack[..|s.stack| - 1])
    else s
  }

  function At(openers: map<nat, Opener>, i: nat): Option<Opener> { if i in openers then Some(openers[i]) else None }

  /** The scan of a text that starts at position `at` of the file, string literals blanked. */
  function Scanned(s: Scan, text: string, at: nat, openers: map<nat, Opener>, normalize: string -> string): Scan
    decreases |text|
  {
    if text == "" then s
    else Scanned(ScanChar(s, text[0], At(openers, at), normalize), text[1..], at + 1, openers, normalize)
  }

  const NOTHING := Scan([], [])

  /** A source file: its text, and what the two patterns found in front of braces. */
  datatype Source = Source(text: string, openers: map<nat, Opener>)

  function FileRoutes(f: Source, normalize: string -> string): seq<Route> {
    Scanned(NOTHING, Blanked(f.text), 0, f.openers, normalize).routes
  }

  function AllRoutes(files: seq<Source>, normalize: string -> string): seq<Route> {
    if files == [] then [] else AllRoutes(files[..|files| - 1], normalize) + FileRoutes(files[|files| - 1], normalize)
  }

  /** `_ktor`: the loop over the files and, in each, over the characters. */
  method Ktor(files: seq<Source>, normalize: string -> string) returns (routes: seq<Route>)
    ensures routes == AllRoutes(files, normalize)
  {
    routes := [];
    for k := 0 to |files|
      invariant routes == AllRoutes(files[..k], normalize)
    {
      assert files[..k + 1][..k] == files[..k];
      var found := ScanFile(files[k], normalize);
      routes := routes + found;
    }
    assert files[..|files|] == files;
  }

  method ScanFile(f: Source, normalize: string -> string) returns (routes: seq<Route>)
    ensures routes == FileRoutes(f, normalize)
  {
    var depthText := Blanked(f.text);
    var stack: seq<string> := [];
    routes := [];
    for index := 0 to |depthText|
      invariant Scanned(Scan(routes, stack), depthText[index..], index, f.openers, normalize) ==
                Scanned(NOTHING, depthText, 0, f.openers, normalize)
    {
      var c := depthText[index];
      assert depthText[index..][1..] == depthText[index + 1..];
      if c == '{' {
        var opener := At(f.openers, index);
        if opener.Some? && opener.value.MethodOpener? {
          routes := routes + [Route(opener.value.verb, normalize(JoinPath(stack + [opener.value.path])))];
        }
        stack := stack + [if opener.Some? && opener.value.RouteOpener? then opener.value.path else ""];
      } else if c == '}' && stack != [] {
        stack := stack[..|stack| - 1];
      }
    }
  }

  // ---- trees of blocks ----

  /** Text without braces, or a block: the text before its brace, what that text declares, and the block's contents. */
  datatype Node = Text(text: string) | Block(head: string, opener: Option<Opener>, body: seq<Node>)

  predicate BraceFree(s: string) { '{' !in s && '}' !in s }

  ghost predicate WellFormed(nodes: seq<Node>) {
    if nodes == [] then true
    else
      && WellFormed(nodes[1..])
      && match nodes[0]
         case Text(s) => BraceFree(s)
         case Block(head, _, body) => BraceFree(head) && WellFormed(body)
  }

  /** The text of a list of blocks. */
  function Print(nodes: seq<Node>): string {
    if nodes == [] then ""
    else PrintNode(nodes[0]) + Print(nodes[1..])
  }

  function PrintNode(node: Node): string {
    match node
    case Text(s) => s
    case Block(head, _, body) => head + ("{" + (Print(body) + "}"))
  }

  lemma {:induction false} PrintAppend(a: seq<Node>, b: seq<Node>)
    ensures Print(a + b) == Print(a) + Print(b)
  {
    if a == [] {
      assert a + b == b;
    } else {
      assert (a + b)[1..] == a[1..] + b;
      PrintAppend(a[1..], b);
    }
  }

  /** The table of openers has, at the brace of every block that is printed from `at` on, what the block declares. */
  ghost predicate Marks(openers: map<nat, Opener>, nodes: seq<Node>, at: nat) {
    if nodes == [] then true
    else
      && Marks(openers, nodes[1..], at + |PrintNode(nodes[0])|)
      && match nodes[0]
         case Text(_) => true
         case Block(head, opener, body) =>
           && (match opener
               case None => at + |head| !in openers
               case Some(o) => at + |head| in openers && openers[at + |head|] == o)
           && Marks(openers, body, at + |head| + 1)
  }

  /** The routes a tree declares: one for each method block, its path the enclosing route segments and its own. */
  function Routes(nodes: seq<Node>, enclosing: seq<string>, normalize: string -> string): seq<Route> {
    if nodes == [] then []
    else NodeRoutes(nodes[0], enclosing, normalize) + Routes(nodes[1..], enclosing, normalize)
  }

  function NodeRoutes(node: Node, enclosing: seq<string>, normalize: string -> string): seq<Route> {
    match node
    case Text(_) => []
    case Block(_, Some(MethodOpener(verb, path)), body) =>
      [Route(verb, normalize(JoinPath(enclosing + [path])))] + Routes(body, enclosing, normalize)
    case Block(_, Some(RouteOpener(path)), body) => Routes(body, enclosing + [path], normalize)
    case Block(_, None, body) => Routes(body, enclosing, normalize)
  }

  lemma {:induction false} ScannedAppend(s: Scan, a: string, b: string, at: nat, openers: map<nat, Opener>,
                                         normalize: string -> string)
    ensures Scanned(s, a + b, at, openers, normalize) ==
            Scanned(Scanned(s, a, at, openers, normalize), b, at + |a|, openers, normalize)
    decreases |a|
  {
    if a == "" {
      assert a + b == b;
    } else {
      assert (a + b)[1..] == a[1..] + b;
      ScannedAppend(ScanChar(s, a[0], At(openers, at), normalize), a[1..], b, at + 1, openers, normalize);
    }
  }

  lemma {:induction false} SkipText(s: Scan, text: string, at: nat, openers: map<nat, Opener>, normalize: string -> string)
    requires BraceFree(text)
    ensures Scanned(s, text, at, openers, normalize) == s
    decreases |text|
  {
    if text == "" {
    } else {
      SkipText(s, text[1..], at + 1, openers, normalize);
    }
  }

  lemma OneChar(s: Scan, c: char, at: nat, openers: map<nat, Opener>, normalize: string -> string)
    ensures Scanned(s, [c], at, openers, normalize) == ScanChar(s, c, At(openers, at), normalize)
  {
    assert [c][1..] == "";
  }

  /** A stack and the enclosing segments that it stands for. */
  ghost predicate Encloses(stack: seq<string>, enclosing: seq<string>) { Segments(stack) == Segments(enclosing) }

  lemma EnclosesPush(stack: seq<string>, enclosing: seq<string>, path: string)
    requires Encloses(stack, enclosing)
    ensures Encloses(stack + [path], enclosing + [path])
    ensures Encloses(stack + [""], enclosing)
    ensures JoinPath(stack + [path]) == JoinPath(enclosing + [path])
  {
    SegmentsAppend(stack, [path]);
    SegmentsAppend(enclosing, [path]);
    SegmentsAppend(stack, [""]);
    assert Segments([""]) == [] by { assert [""][1..] == []; StripTrims(""); }
    assert Segments(stack) + [] == Segments(stack);
    SameSegments(stack + [path], enclosing + [path]);
  }

  /** Scanning printed nodes adds their routes and restores the stack. */
  lemma {:induction false} ScanNodes(s: Scan, nodes: seq<Node>, at: nat, openers: map<nat, Opener>,
                                     enclosing: seq<string>, normalize: string -> string)
    requires WellFormed(nodes) && Marks(openers, nodes, at) && Encloses(s.stack, enclosing)
    ensures Scanned(s, Print(nodes), at, openers, normalize) ==
            Scan(s.routes + Routes(nodes, enclosing, normalize), s.stack)
    decreases nodes
  {
    if nodes == [] {
      assert s.routes + [] == s.routes;
    } else {
      var node, rest := nodes[0], nodes[1..];
      var found, more := NodeRoutes(node, enclosing, normalize), Routes(rest, enclosing, normalize);
      ScanNode(s, node, at, openers, enclosing, normalize);
      ScannedAppend(s, PrintNode(node), Print(rest), at, openers, normalize);
      ScanNodes(Scan(s.routes + found, s.stack), rest, at + |PrintNode(node)|, openers, enclosing, normalize);
      Regroup(s.routes, found, more);
    }
  }

  lemma ScanNode(s: Scan, node: Node, at: nat, openers: map<nat, Opener>, enclosing: seq<string>,
                 normalize: string -> string)
    requires WellFormed([node]) && Marks(openers, [node], at) && Encloses(s.stack, enclosing)
    ensures Scanned(s, PrintNode(node), at, openers, normalize) ==
            Scan(s.routes + NodeRoutes(node, enclosing, normalize), s.stack)
    decreases node
  {
    match node {
      case Text(text) =>
        SkipText(s, text, at, openers, normalize);
        assert s.routes + [] == s.routes;
      case Block(head, opener, body) =>
        var open := at + |head|;
        var inner := ScanChar(s, '{', opener, normalize);
        SkipText(s, head, at, openers, normalize);
        ScannedAppend(s, head, "{" + (Print(body) + "}"), at, openers, normalize);
        OneChar(s, '{', open, openers, normalize);
        ScannedAppend(s, "{", Print(body) + "}", open, openers, normalize);
        var within := EnterBlock(s, opener, enclosing, normalize);
        ScanNodes(inner, body, open + 1, openers, within, normalize);
        ScannedAppend(inner, Print(body), "}", open + 1, openers, normalize);
        LeaveBlock(s, node, open + 1 + |Print(body)|, openers, enclosing, within, normalize);
    }
  }

  /** The segments that enclose the contents of a block. */
  function Inside(enclosing: seq<string>, opener: Option<Opener>): seq<string> {
    if opener.Some? && opener.value.RouteOpener? then enclosing + [opener.value.path] else enclosing
  }

  lemma EnterBlock(s: Scan, opener: Option<Opener>, enclosing: seq<string>, normalize: string -> string)
    returns (within: seq<string>)
    requires Encloses(s.stack, enclosing)
    ensures Encloses(ScanChar(s, '{', opener, normalize).stack, within)
    ensures within == Inside(enclosing, opener)
  {
    EnclosesPush(s.stack, enclosing, if opener.Some? then opener.value.path else "");
    within := Inside(enclosing, opener);
  }

  lemma LeaveBlock(s: Scan, node: Node, at: nat, openers: map<nat, Opener>, enclosing: seq<string>, within: seq<string>,
                   normalize: string -> string)
    requires node.Block? && Encloses(s.stack, enclosing)
    requires within == Inside(enclosing, node.opener)
    ensures var inner := ScanChar(s, '{', node.opener, normalize);
            var after := Scan(inner.routes + Routes(node.body, within, normalize), inner.stack);
            Scanned(after, "}", at, openers, normalize) ==
            Scan(s.routes + NodeRoutes(node, enclosing, normalize), s.stack)
  {
    var inner := ScanChar(s, '{', node.opener, normalize);
    var found := Routes(node.body, within, normalize);
    OneChar(Scan(inner.routes + found, inner.stack), '}', at, openers, normalize);
    assert inner.stack[..|inner.stack| - 1] == s.stack;
    match node.opener {
      case Some(MethodOpener(verb, path)) =>
        EnclosesPush(s.stack, enclosing, path);
        var own := [Route(verb, normalize(JoinPath(enclosing + [path])))];
        assert (s.routes + own) + found == s.routes + (own + found);
      case Some(RouteOpener(_)) =>
      case None =>
    }
  }

  // ---- trees with literals ----

  /** Texts and heads whose literals are closed, and whose braces all stand inside literals, as in a path `/{id}`. */
  ghost predicate Plain(nodes: seq<Node>) {
    if nodes == [] then true
    else
      && Plain(nodes[1..])
      && match nodes[0]
         case Text(s) => Closed(s) && BraceFree(Blanked(s))
         case Block(head, _, body) => Closed(head) && BraceFree(Blanked(head)) && Plain(body)
  }

  /** What stands before a brace may quote a path with parameters, as `route("/{id}")` does. */
  lemma HeadWithPath(before: string, path: string, after: string)
    requires '"' !in before && '"' !in after && BraceFree(before) && BraceFree(after)
    requires '"' !in path && '\\' !in path && '\n' !in path
    ensures var head := before + (("\"" + (path + "\"")) + after); Closed(head) && BraceFree(Blanked(head))
  {
    var literal := "\"" + (path + "\"");
    NoQuotes(before);
    NoQuotes(after);
    PathBlanked(path);
    ClosedAppend(literal, after);
    BlankedAppend(literal, after);
    ClosedAppend(before, literal + after);
    BlankedAppend(before, literal + after);
  }

  /** The same tree with blanked literals. */
  function BlankNodes(nodes: seq<Node>): seq<Node> {
    if nodes == [] then [] else [BlankNode(nodes[0])] + BlankNodes(nodes[1..])
  }

  function BlankNode(node: Node): Node {
    match node
    case Text(s) => Text(Blanked(s))
    case Block(head, opener, body) => Block(Blanked(head), opener, BlankNodes(body))
  }

  /** Blanking the printed text prints the blanked tree. */
  lemma {:induction false} BlankedPrint(nodes: seq<Node>)
    requires Plain(nodes)
    ensures Closed(Print(nodes)) && Blanked(Print(nodes)) == Print(BlankNodes(nodes))
    ensures WellFormed(BlankNodes(nodes))
    decreases nodes
  {
    if nodes == [] {
    } else {
      BlankedPrintNode(nodes[0]);
      BlankedPrint(nodes[1..]);
      ClosedAppend(PrintNode(nodes[0]), Print(nodes[1..]));
      BlankedAppend(PrintNode(nodes[0]), Print(nodes[1..]));
    }
  }

  lemma BlankedPrintNode(node: Node)
    requires Plain([node])
    ensures Closed(PrintNode(node)) && Blanked(PrintNode(node)) == PrintNode(BlankNode(node))
    ensures WellFormed([BlankNode(node)])
    decreases node
  {
    match node {
      case Text(_) =>
      case Block(head, _, body) =>
        BlankedPrint(body);
        BraceAlone('{');
        BraceAlone('}');
        var tail := Print(body) + "}";
        ClosedAppend(Print(body), "}");
        BlankedAppend(Print(body), "}");
        ClosedAppend("{", tail);
        BlankedAppend("{", tail);
        ClosedAppend(head, "{" + tail);
        BlankedAppend(head, "{" + tail);
    }
  }

  /** Blanking moves no brace and declares the same routes. */
  lemma {:induction false} BlankedMarks(openers: map<nat, Opener>, nodes: seq<Node>, at: nat)
    requires Plain(nodes) && Marks(openers, nodes, at)
    ensures Marks(openers, BlankNodes(nodes), at)
    decreases nodes
  {
    if nodes == [] {
    } else {
      BlankedPrintNode(nodes[0]);
      BlankedMarks(openers, nodes[1..], at + |PrintNode(nodes[0])|);
      match nodes[0] {
        case Text(_) =>
        case Block(head, _, body) => BlankedMarks(openers, body, at + |head| + 1);
      }
    }
  }

  lemma {:induction false} BlankedRoutes(nodes: seq<Node>, enclosing: seq<string>, normalize: string -> string)
    ensures Routes(BlankNodes(nodes), enclosing, normalize) == Routes(nodes, enclosing, normalize)
    decreases nodes
  {
    if nodes == [] {
    } else {
      BlankedRoutes(nodes[1..], enclosing, normalize);
      match nodes[0] {
        case Text(_) =>
        case Block(_, opener, body) => BlankedRoutes(body, Inside(enclosing, opener), normalize);
      }
    }
  }

  /**
   * The scan of a printed file yields, in source order, exactly the routes that its tree of blocks declares, whatever
   * braces its string literals contain.
   */
  lemma ScanPrinted(nodes: seq<Node>, openers: map<nat, Opener>, normalize: string -> string)
    requires Plain(nodes) && Marks(openers, nodes, 0)
    ensures FileRoutes(Source(Print(nodes), openers), normalize) == Routes(nodes, [], normalize)
    ensures Scanned(NOTHING, Blanked(Print(nodes)), 0, openers, normalize).stack == []
  {
    BlankedPrint(nodes);
    BlankedMarks(openers, nodes, 0);
    BlankedRoutes(nodes, [], normalize);
    ScanNodes(NOTHING, BlankNodes(nodes), 0, openers, [], normalize);
    assert [] + Routes(nodes, [], normalize) == Routes(nodes, [], normalize);
  }
}
