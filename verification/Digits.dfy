/** Decimal text: the fixed-width digit strings that every record field, timestamp and key is made of. */
module Digits {
  import opened Arith

  function Pow10(n: nat): (p: nat)
    ensures p > 0
  {
    if n == 0 then 1 else 10 * Pow10(n - 1)
  }

  predicate IsDigit(c: char) { '0' <= c <= '9' }

  ghost predicate AllDigits(s: string) {
    forall i :: 0 <= i < |s| ==> IsDigit(s[i])
  }

  function DigitChar(d: nat): char
    requires d < 10
  {
    '0' + d as char
  }

  function DigitOf(c: char): (d: nat)
    ensures IsDigit(c) ==> d < 10 && DigitChar(d) == c
    ensures d == 0 || IsDigit(c)
  {
    if IsDigit(c) then (c - '0') as nat else 0
  }

  /** The number that a digit string denotes, most significant digit first. */
  function Value(s: string): nat {
    if s == "" then 0 else 10 * Value(s[..|s| - 1]) + DigitOf(s[|s| - 1])
  }

  /** The last `w` digits of `n`, zero padded. */
  function Fixed(n: nat, w: nat): (s: string)
    ensures |s| == w
    ensures AllDigits(s)
  {
    if w == 0 then "" else Fixed(n / 10, w - 1) + [DigitChar(n % 10)]
  }

  function NumDigits(n: nat): (k: nat)
    ensures k >= 1
  {
    if n < 10 then 1 else 1 + NumDigits(n / 10)
  }

  function Max(a: int, b: int): int { if a < b then b else a }

  function Min(a: int, b: int): int { if a < b then a else b }

  /** `str(n)`. */
  function Str(n: nat): string { Fixed(n, NumDigits(n)) }

  /** `str` of an integer of either sign. */
  function SignedText(i: int): string { if i < 0 then "-" + Str(-i) else Str(i) }

  /** The format `{n:0wd}`: zero padded to at least `w` characters. */
  function Padded(n: nat, w: nat): string { Fixed(n, Max(w, NumDigits(n))) }

  /** `s.rjust(w, "0")`. */
  function RjustZero(s: string, w: int): string {
    if |s| >= w then s else seq(w - |s|, _ => '0') + s
  }

  lemma {:induction false} Pow10Add(a: nat, b: nat)
    ensures Pow10(a + b) == Pow10(a) * Pow10(b)
  {
    if a == 0 {
    } else {
      Pow10Add(a - 1, b);
      assert Pow10(a + b) == 10 * Pow10((a - 1) + b);
    }
  }

  lemma {:induction false} Pow10Monotone(a: nat, b: nat)
    ensures a <= b <==> Pow10(a) <= Pow10(b)
    ensures a < b ==> Pow10(a) < Pow10(b)
    decreases a + b
  {
    if a == 0 || b == 0 {
    } else {
      Pow10Monotone(a - 1, b - 1);
    }
  }

  /** A number below `10^w` is recovered from its `w` digits. */
  lemma {:induction false} ValueOfFixed(n: nat, w: nat)
    requires n < Pow10(w)
    ensures Value(Fixed(n, w)) == n
  {
    if w == 0 {
    } else {
      ValueOfFixed(n / 10, w - 1);
      var s := Fixed(n, w);
      assert s[..|s| - 1] == Fixed(n / 10, w - 1);
    }
  }

  /** A digit string is recovered from its number and its length. */
  lemma {:induction false} FixedOfValue(s: string)
    requires AllDigits(s)
    ensures Value(s) < Pow10(|s|)
    ensures Fixed(Value(s), |s|) == s
  {
    if s == "" {
    } else {
      var front, last := s[..|s| - 1], s[|s| - 1];
      FixedOfValue(front);
      assert Value(s) / 10 == Value(front) && Value(s) % 10 == DigitOf(last);
      assert s == front + [last];
    }
  }

  /** `NumDigits` is the least width that holds the number. */
  lemma {:induction false} NumDigitsBound(n: nat, w: nat)
    requires w >= 1
    ensures NumDigits(n) <= w <==> n < Pow10(w)
  {
    if n >= 10 {
      if w >= 2 {
        NumDigitsBound(n / 10, w - 1);
      } else {
        assert Pow10(1) == 10;
      }
    } else {
      Pow10Monotone(1, w);
      assert Pow10(1) == 10;
    }
  }

  /** `Value(Str(n)) == n` and `str` never writes more digits than needed. */
  lemma ValueOfPadded(n: nat, w: nat)
    ensures Value(Padded(n, w)) == n
    ensures |Padded(n, w)| == Max(w, NumDigits(n))
    ensures AllDigits(Padded(n, w))
    ensures w >= 1 ==> (|Padded(n, w)| == w <==> n < Pow10(w))
  {
    var k := Max(w, NumDigits(n));
    NumDigitsBound(n, k);
    ValueOfFixed(n, k);
    if w >= 1 { NumDigitsBound(n, w); }
  }

  lemma {:induction false} FixedLeadingZeros(n: nat, k: nat, w: nat)
    requires n < Pow10(k) && k <= w
    ensures Fixed(n, w) == RjustZero(Fixed(n, k), w)
    decreases w
  {
    if k == w {
    } else {
      if k == 0 {
        FixedLeadingZeros(0, 0, w - 1);
        assert seq(w, _ => '0') == seq(w - 1, _ => '0') + ['0'];
      } else {
        FixedLeadingZeros(n / 10, k - 1, w - 1);
        assert RjustZero(Fixed(n, k), w) == RjustZero(Fixed(n / 10, k - 1), w - 1) + [DigitChar(n % 10)];
      }
    }
  }

  /** Padding digits with zeros on the left is writing the number wider. */
  lemma RjustFixed(n: nat, k: nat, w: int)
    requires n < Pow10(k)
    ensures RjustZero(Fixed(n, k), w) == Fixed(n, Max(k, w))
  {
    if k < w { FixedLeadingZeros(n, k, w); }
  }

  lemma TenTimes(hi: nat, b: nat)
    ensures hi * Pow10(b) == if b == 0 then hi else 10 * (hi * Pow10(b - 1))
    ensures hi * Pow10(b) >= 0
  {
  }

  lemma LastDigit(part: nat, lo: nat, w: nat)
    requires w > 0
    ensures Fixed(10 * part + lo, w) == Fixed(part + lo / 10, w - 1) + [DigitChar(lo % 10)]
  {
    DivStep(10, part, lo);
  }

  /** The digits of a number written in two parts. */
  lemma {:induction false} FixedAppend(hi: nat, lo: nat, a: nat, b: nat)
    requires lo < Pow10(b)
    ensures hi * Pow10(b) >= 0
    ensures Fixed(hi * Pow10(b) + lo, a + b) == Fixed(hi, a) + Fixed(lo, b)
  {
    TenTimes(hi, b);
    if b == 0 {
      assert Fixed(hi, a) + "" == Fixed(hi, a);
    } else {
      FixedAppend(hi, lo / 10, a, b - 1);
      LastDigit(hi * Pow10(b - 1), lo, a + b);
      assert Fixed(hi, a) + (Fixed(lo / 10, b - 1) + [DigitChar(lo % 10)]) ==
             (Fixed(hi, a) + Fixed(lo / 10, b - 1)) + [DigitChar(lo % 10)];
    }
  }

  predicate PlainNumber(s: string) {
    s != "" && forall i :: 0 <= i < |s| ==> IsDigit(s[i])
  }

  /** Python's `<` on strings. */
  predicate LexLess(s: string, t: string) {
    if t == "" then false
    else if s == "" then true
    else s[0] < t[0] || (s[0] == t[0] && LexLess(s[1..], t[1..]))
  }

  lemma {:induction false} Irreflexive(s: string)
    ensures !LexLess(s, s)
  {
    if s == "" {
    } else {
      Irreflexive(s[1..]);
    }
  }

  /** Of two different strings exactly one comes first. */
  lemma {:induction false} LexTotal(s: string, t: string)
    ensures LexLess(s, t) || LexLess(t, s) || s == t
    ensures !(LexLess(s, t) && LexLess(t, s))
  {
    if s == "" || t == "" {
    } else {
      LexTotal(s[1..], t[1..]);
      if s[0] == t[0] && s[1..] == t[1..] { assert s == [s[0]] + s[1..] && t == [t[0]] + t[1..]; }
    }
  }

  lemma {:induction false} LexTransitive(s: string, t: string, u: string)
    requires LexLess(s, t) && LexLess(t, u)
    ensures LexLess(s, u)
  {
    if s == "" || s[0] != t[0] || t[0] != u[0] {
    } else {
      LexTransitive(s[1..], t[1..], u[1..]);
    }
  }

  lemma {:induction false} LexAppend(a: string, b: string, c: string, d: string)
    requires |a| == |c|
    ensures LexLess(a + b, c + d) <==> LexLess(a, c) || (a == c && LexLess(b, d))
  {
    if a == "" {
      assert a + b == b && c + d == d;
    } else {
      LexAppend(a[1..], b, c[1..], d);
      assert (a + b)[1..] == a[1..] + b && (c + d)[1..] == c[1..] + d;
      assert a == [a[0]] + a[1..] && c == [c[0]] + c[1..];
    }
  }

  lemma OneCharOrder(c: char, d: char)
    ensures LexLess([c], [d]) <==> c < d
  {
    assert [c][1..] == "" && [d][1..] == "";
  }

  /** Text order of zero-padded numbers of one width is numeric order. */
  lemma {:induction false} FixedOrder(m: nat, n: nat, w: nat)
    requires m < Pow10(w) && n < Pow10(w)
    ensures LexLess(Fixed(m, w), Fixed(n, w)) <==> m < n
    ensures Fixed(m, w) == Fixed(n, w) <==> m == n
  {
    if w == 0 {
    } else {
      FixedOrder(m / 10, n / 10, w - 1);
      var a, b, c, d := Fixed(m / 10, w - 1), DigitChar(m % 10), Fixed(n / 10, w - 1), DigitChar(n % 10);
      LexAppend(a, [b], c, [d]);
      OneCharOrder(b, d);
      LastApart(a, b, c, d);
    }
  }

  lemma LastApart(a: string, b: char, c: string, d: char)
    ensures a + [b] == c + [d] <==> a == c && b == d
  {
    if a + [b] == c + [d] {
      assert (a + [b])[..|a|] == a && (a + [b])[|a|] == b;
    }
  }
}
