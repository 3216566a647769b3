/** The business hash: rendering source and target values of one row (migration/job/ldm/hashing.py). */
module Hashing {
  import opened Bytes
  import opened Calendar
  import opened Codecs
  import opened Convert
  import opened Decimals
  import opened Digits
  import opened Results
  import opened Texts
  import opened Timestamps

  const EIGHT := 8

  /** Text of a decimal in a hash; an error when eight places need more than the precision. */
  function RenderDecimal(d: Decimal): Option<string> {
    match Quantize(d, EIGHT)
    case Err(_) => None
    case Ok(q) => Some(FormatF(if q.coeff == 0 then AbsDecimal(q) else q))
  }

  /** Text columns: a key is rendered as it is, any other column without trailing blanks. */
  function RenderText(text: string, isKey: bool): string { if isKey then text else Rstrip(text) }

  function HexDigit(n: nibble): char { if n < 10 then '0' + n as char else 'A' + (n - 10) as char }

  /** `raw.hex().upper()`. */
  function HexUpper(raw: seq<byte>): string {
    var ns := Nibbles(raw);
    seq(|ns|, i requires 0 <= i < |ns| => HexDigit(ns[i]))
  }

  /** `strftime("%Y%m%d")`: the C library does not pad years below 1000. */
  function StrfDate(d: Date): string { Str(d.year) + Padded(d.month, 2) + Padded(d.day, 2) }

  /** One value rendered for the hash; the same code serves both sides. */
  function Render(c: Cell, isKey: bool): Option<string> {
    match c
    case VText(s) => Some(RenderText(s, isKey))
    case VInt(i) => Some(SignedText(i))
    case VDec(d) => RenderDecimal(d)
    case VBytes(b) => Some(RenderText(HexUpper(b), isKey))
    case VDate(d) => Some(RenderText(StrfDate(d), isKey))
    case VTimestamp(ts) => Some(RenderText(ts.text, isKey))
  }

  /** The value map as the source side applies it, to the untrimmed text. */
  function SourceMapped(text: string, spec: ColumnSpec): string {
    var key := Rstrip(text);
    if key in spec.valueMap then
      (if spec.trim then spec.valueMap[key] else Ljust(spec.valueMap[key], |text|))
    else text
  }

  /** `render_source_column`. */
  function RenderSource(c: Cell, spec: ColumnSpec): Option<string> {
    if spec.kind == KChar && c.VText? then Some(RenderText(SourceMapped(c.text, spec), spec.isKey))
    else Render(c, spec.isKey)
  }

  /** `render_target_column` for a row as the loader builds it. */
  function RenderTarget(c: Cell, spec: ColumnSpec): Option<string> { Render(c, spec.isKey) }

  predicate TrailingBlank(text: string) { text != "" && text[|text| - 1] == ' ' }

  predicate MapHit(text: string, spec: ColumnSpec) { Rstrip(text) in spec.valueMap }

  /** When the two renderings of an accepted column agree. */
  predicate Agrees(source: Cell, spec: ColumnSpec) {
    if spec.kind == KChar && source.VText? then
      !(spec.isKey && spec.trim && TrailingBlank(source.text) && !MapHit(source.text, spec))
    else if spec.kind == KDate8 && source.VText? then
      |source.text| == 8 && (ParseDate8(source.text).Some? ==> ParseDate8(source.text).value.year >= 1000)
    else true
  }

  lemma RstripShorter(text: string)
    ensures Rstrip(text) == text <==> !TrailingBlank(text)
  {
    if TrailingBlank(text) { assert |Rstrip(text)| <= |text| - 1; }
  }

  lemma CharAgrees(text: string, spec: ColumnSpec)
    requires spec.kind == KChar
    ensures RenderText(SourceMapped(text, spec), spec.isKey) == RenderText(MappedText(text, spec), spec.isKey)
            <==> Agrees(VText(text), spec)
  {
    RstripTwice(text);
    RstripShorter(text);
  }

  lemma Date8Canonical(text: string)
    requires ParseDate8(text).Some?
    ensures Chopped(text, 8) == Date8Text(ParseDate8(text).value)
  {
    var t := Chopped(text, 8);
    var y, m, d := t[0..4], t[4..6], t[6..8];
    assert AllDigits(y) && AllDigits(m) && AllDigits(d);
    FieldDigits(y);
    FieldDigits(m);
    FieldDigits(d);
    assert t == y + m + d;
  }

  lemma {:induction false} RstripDigits(text: string)
    requires text == "" || text[|text| - 1] != ' '
    ensures Rstrip(text) == text
  {
  }

  lemma StrfDateDigits(d: Date)
    requires ValidDate(d)
    ensures StrfDate(d) == Date8Text(d) <==> d.year >= 1000
    ensures |StrfDate(d)| <= 8 && StrfDate(d) != "" && IsDigit(StrfDate(d)[|StrfDate(d)| - 1])
  {
    FieldWidth(d.month, 2);
    FieldWidth(d.day, 2);
    Widths();
    assert Pow10(3) == 1000;
    NumDigitsBound(d.year, 3);
    NumDigitsBound(d.year, 4);
    FieldWidth(d.year, 4);
    if d.year >= 1000 {
      assert NumDigits(d.year) == 4;
    } else {
      assert |StrfDate(d)| < 8 == |Date8Text(d)|;
    }
  }

  lemma DateAgrees(text: string, isKey: bool)
    requires ParseDate8(text).Some?
    ensures RenderText(text, isKey) == RenderText(StrfDate(ParseDate8(text).value), isKey)
            <==> |text| == 8 && ParseDate8(text).value.year >= 1000
  {
    var d := ParseDate8(text).value;
    Date8Canonical(text);
    StrfDateDigits(d);
    RstripDigits(StrfDate(d));
    assert text[|text| - 1] != ' ';
    RstripDigits(text);
  }

  /** Eight digits of a date, read. */
  lemma DateIs(text: string, y: string, m: string, d: string, date: Date)
    requires AllDigits(y) && AllDigits(m) && AllDigits(d) && |y| == 4 && |m| == 2 && |d| == 2
    requires Chopped(text, 8) == y + m + d && date == Date(Value(y), Value(m), Value(d)) && ValidDate(date)
    ensures ParseDate8(text) == Some(date)
  {
    var t := y + m + d;
    assert t[0..4] == y && t[4..6] == m && t[6..8] == d;
  }

  lemma DigitValues()
    ensures Value("2020") == 2020 && Value("0999") == 999 && Value("01") == 1 && Value("31") == 31
  {
    assert "2020"[..3] == "202" && "202"[..2] == "20" && "20"[..1] == "2" && "2"[..0] == "";
    assert "0999"[..3] == "099" && "099"[..2] == "09" && "09"[..1] == "0" && "0"[..0] == "";
    assert "01"[..1] == "0" && "31"[..1] == "3" && "3"[..0] == "";
  }

  const NEWLINE_DATE := "20200131\n"
  const EARLY_DATE := "09990131"

  /** A date followed by a newline is accepted, and hashes differently on the two sides. */
  lemma NewlineDateDiffers(isKey: bool)
    ensures ParseDate8(NEWLINE_DATE) == Some(Date(2020, 1, 31))
    ensures RenderText(NEWLINE_DATE, isKey) != RenderText(StrfDate(Date(2020, 1, 31)), isKey)
  {
    DigitValues();
    assert Chopped(NEWLINE_DATE, 8) == "2020" + "01" + "31";
    DateIs(NEWLINE_DATE, "2020", "01", "31", Date(2020, 1, 31));
    DateAgrees(NEWLINE_DATE, isKey);
  }

  /** So does a date before the year 1000. */
  lemma EarlyDateDiffers(isKey: bool)
    ensures ParseDate8(EARLY_DATE) == Some(Date(999, 1, 31))
    ensures RenderText(EARLY_DATE, isKey) != RenderText(StrfDate(Date(999, 1, 31)), isKey)
  {
    DigitValues();
    assert Chopped(EARLY_DATE, 8) == "0999" + "01" + "31";
    DateIs(EARLY_DATE, "0999", "01", "31", Date(999, 1, 31));
    DateAgrees(EARLY_DATE, isKey);
  }

  /** The two renderings of what was read from a text, and when they must agree. */
  ghost predicate AgreesWhenExpected(text: string, spec: ColumnSpec)
    requires ConvertText(text, spec).Ok?
  {
    var (target, source) := ConvertText(text, spec).value;
    source == VText(text) && (RenderSource(source, spec) == RenderTarget(target, spec) <==> Agrees(source, spec))
  }

  lemma TimestampAgrees(text: string, spec: ColumnSpec)
    requires spec.kind == KTimestamp12 && ConvertText(text, spec).Ok?
    ensures AgreesWhenExpected(text, spec)
  {
  }

  lemma DateColumnAgrees(text: string, spec: ColumnSpec)
    requires spec.kind == KDate8 && ConvertText(text, spec).Ok?
    ensures AgreesWhenExpected(text, spec)
  {
    DateAgrees(text, spec.isKey);
  }

  lemma CharColumnAgrees(text: string, spec: ColumnSpec)
    requires spec.kind == KChar && ConvertText(text, spec).Ok?
    ensures AgreesWhenExpected(text, spec)
  {
    CharAgrees(text, spec);
  }

  lemma TextAgrees(text: string, spec: ColumnSpec)
    requires spec.kind in {KChar, KDate8, KTimestamp12} && ConvertText(text, spec).Ok?
    ensures AgreesWhenExpected(text, spec)
  {
    match spec.kind
    case KChar => CharColumnAgrees(text, spec);
    case KDate8 => DateColumnAgrees(text, spec);
    case KTimestamp12 => TimestampAgrees(text, spec);
  }

  lemma SameCellAgrees(c: Cell, spec: ColumnSpec)
    requires !c.VText?
    ensures RenderSource(c, spec) == RenderTarget(c, spec) && Agrees(c, spec)
  {
  }

  /**
   * Hash agreement: for every field the job accepts, source and target render alike, except a right-trimmed
   * key without a value-map hit whose stored text ends in a blank, and dates before the year 1000 (or
   * followed by a newline), which the two sides write differently.
   */
  lemma ColumnAgreement(raw: seq<byte>, spec: ColumnSpec, py: Python)
    requires ConvertField(raw, spec, py).Ok?
    ensures var (target, source) := ConvertField(raw, spec, py).value;
            RenderSource(source, spec) == RenderTarget(target, spec) <==> Agrees(source, spec)
  {
    var (target, source) := ConvertField(raw, spec, py).value;
    match spec.kind
    case KChar | KDate8 | KTimestamp12 =>
      TextAgrees(spec.codec.Decode(raw).value, spec);
    case _ =>
      SameCellAgrees(source, spec);
  }

  // ---- the joined preimage ----

  /** The joined text determines its columns when none of them contains the separator. */
  lemma PreimageDeterminesColumns(a: seq<string>, b: seq<string>)
    requires |a| == |b|
    requires forall p :: p in a || p in b ==> '|' !in p
    ensures Join(a, '|') == Join(b, '|') <==> a == b
  {
    if a != [] {
      SplitOfJoin(a, '|');
      SplitOfJoin(b, '|');
    }
  }

  /** The renderings of the hash columns in order. */
  function Renderings(cells: seq<Cell>, specs: seq<ColumnSpec>, source: bool): (rs: seq<Option<string>>)
    requires |cells| == |specs|
    ensures |rs| == |specs|
  {
    seq(|specs|, i requires 0 <= i < |specs| =>
      if source then RenderSource(cells[i], specs[i]) else RenderTarget(cells[i], specs[i]))
  }

  predicate AllRendered(rs: seq<Option<string>>) { forall i :: 0 <= i < |rs| ==> rs[i].Some? }

  function Values(rs: seq<Option<string>>): (vs: seq<string>)
    requires AllRendered(rs)
    ensures |vs| == |rs|
  {
    seq(|rs|, i requires 0 <= i < |rs| => rs[i].value)
  }

  /** The text that is hashed; `None` when a column cannot be rendered. */
  function HashInput(cells: seq<Cell>, specs: seq<ColumnSpec>, source: bool): Option<string>
    requires |cells| == |specs|
  {
    var rs := Renderings(cells, specs, source);
    if AllRendered(rs) then Some(Join(Values(rs), '|')) else None
  }

  ghost predicate AcceptedRow(raws: seq<seq<byte>>, specs: seq<ColumnSpec>, py: Python) {
    |raws| == |specs| && forall i :: 0 <= i < |specs| ==> ConvertField(raws[i], specs[i], py).Ok?
  }

  function Targets(raws: seq<seq<byte>>, specs: seq<ColumnSpec>, py: Python): (cs: seq<Cell>)
    requires AcceptedRow(raws, specs, py)
    ensures |cs| == |specs|
  {
    seq(|specs|, i requires 0 <= i < |specs| => ConvertField(raws[i], specs[i], py).value.0)
  }

  function Sources(raws: seq<seq<byte>>, specs: seq<ColumnSpec>, py: Python): (cs: seq<Cell>)
    requires AcceptedRow(raws, specs, py)
    ensures |cs| == |specs|
  {
    seq(|specs|, i requires 0 <= i < |specs| => ConvertField(raws[i], specs[i], py).value.1)
  }

  ghost predicate NoSeparators(rs: seq<Option<string>>) {
    forall i :: 0 <= i < |rs| ==> rs[i].Some? && '|' !in rs[i].value
  }

  lemma SameInputs(a: seq<Option<string>>, b: seq<Option<string>>)
    requires |a| == |b| && NoSeparators(a) && NoSeparators(b)
    ensures AllRendered(a) && AllRendered(b)
    ensures Join(Values(a), '|') == Join(Values(b), '|') <==> a == b
  {
    var x, y := Values(a), Values(b);
    forall p | p in x || p in y
      ensures '|' !in p
    {
      if p in x {
        var i :| 0 <= i < |x| && x[i] == p;
        assert a[i].value == p;
      } else {
        var i :| 0 <= i < |y| && y[i] == p;
        assert b[i].value == p;
      }
    }
    PreimageDeterminesColumns(x, y);
    if x == y {
      forall i | 0 <= i < |a|
        ensures a[i] == b[i]
      {
        assert x[i] == y[i];
      }
    }
  }

  /**
   * For a row of accepted fields whose renderings contain no separator, the two hash inputs are equal exactly
   * when every hash column agrees.
   */
  lemma HashInputsAgree(raws: seq<seq<byte>>, specs: seq<ColumnSpec>, py: Python)
    requires AcceptedRow(raws, specs, py)
    requires NoSeparators(Renderings(Sources(raws, specs, py), specs, true))
    requires NoSeparators(Renderings(Targets(raws, specs, py), specs, false))
    ensures HashInput(Sources(raws, specs, py), specs, true) == HashInput(Targets(raws, specs, py), specs, false) <==>
            forall i :: 0 <= i < |specs| ==> Agrees(Sources(raws, specs, py)[i], specs[i])
  {
    var a := Renderings(Sources(raws, specs, py), specs, true);
    var b := Renderings(Targets(raws, specs, py), specs, false);
    SameInputs(a, b);
    forall i | 0 <= i < |specs|
      ensures a[i] == b[i] <==> Agrees(Sources(raws, specs, py)[i], specs[i])
    {
      ColumnAgreement(raws[i], specs[i], py);
    }
  }

  // ---- a target that returns a six-digit datetime ----

  /** What the target side renders when the driver hands back a datetime of six fraction digits and the tail. */
  function SixDigitTarget(ts: Timestamp12): Option<Timestamp12>
    requires |ts.text| == 32
  {
    var t := ts.text;
    FromTarget(t[0..10] + (" " + (t[11..13] + (":" + (t[14..16] + (":" + (t[17..19] + ("." + (t[20..26] + "0")))))))),
               ts.nanosTail)
  }

  lemma SixDigitText(text: string, u: string)
    requires |text| == 32 && ParseTimestamp12(text).Some? && u == text[26 := '0']
    ensures SixDigitTarget(ParseTimestamp12(text).value) == ParseTimestamp12(u)
  {
    var ts := ParseTimestamp12(text).value;
    var f7 := text[20..26] + "0";
    NoSeparator(text, 11, 13);
    NoSeparator(text, 14, 16);
    NoSeparator(text, 17, 19);
    NoSeparator(text, 27, 32);
    TailText(text[27..32]);
    LiteralSplits(text[0..10], text[11..13], text[14..16], text[17..19], f7, ts.nanosTail);
    ChangedDigit(text, u);
  }

  /** The changed text in the pieces of the old one. */
  lemma ChangedDigit(text: string, u: string)
    requires |text| == 32 && ParseTimestamp12(text).Some? && u == text[26 := '0']
    ensures u == text[0..10] + ("-" + (text[11..13] + ("." + (text[14..16] + ("." + (text[17..19] + ("." +
                 ((text[20..26] + "0") + text[27..32]))))))))
  {
    SameMoment(text, u);
    Reassembled(u);
    assert u[0..10] == text[0..10] && u[20..27] == text[20..26] + "0" && u[27..32] == text[27..32];
  }

  lemma ParsedText(u: string)
    ensures ParseTimestamp12(u).Some? ==> ParseTimestamp12(u).value.text == u
  {
  }

  /** Such a datetime renders the stored text exactly when the seventh fraction digit is zero. */
  lemma SixDigitsSuffice(text: string)
    requires |text| == 32 && ParseTimestamp12(text).Some?
    ensures var r := SixDigitTarget(ParseTimestamp12(text).value);
            r.Some? && r.value.text == text[26 := '0']
            && (r.value.text == text <==> text[26] == '0')
  {
    var u := text[26 := '0'];
    SixDigitText(text, u);
    SameMoment(text, u);
    ParsedText(u);
    assert text[26] == '0' ==> u == text;
  }

  lemma SameMoment(text: string, u: string)
    requires |text| == 32 && ParseTimestamp12(text).Some? && u == text[26 := '0']
    ensures TimestampShape(u) && ParseTimestamp12(u).Some?
    ensures u[11..13] == text[11..13] && u[14..16] == text[14..16] && u[17..19] == text[17..19]
  {
    assert u[0..4] == text[0..4] && u[5..7] == text[5..7] && u[8..10] == text[8..10];
    assert u[11..13] == text[11..13] && u[14..16] == text[14..16] && u[17..19] == text[17..19];
    assert TimestampShape(u);
  }
}
