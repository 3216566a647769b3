/** Byte strings: nibbles and big-endian two's-complement integers. */
module Bytes {
  import opened Arith
  import opened Results

  type byte = x: int | 0 <= x < 256
  type nibble = x: int | 0 <= x < 16

  /** The nibbles of a byte string, high nibble first. */
  function Nibbles(raw: seq<byte>): (ns: seq<nibble>)
    ensures |ns| == 2 * |raw|
  {
    seq(2 * |raw|, i requires 0 <= i < 2 * |raw| => if i % 2 == 0 then raw[i / 2] / 16 else raw[i / 2] % 16)
  }

  function Joined(high: int, low: int): int { high * 16 + low }

  /** Nibbles joined in pairs. */
  function FromNibbles(ns: seq<nibble>): (raw: seq<byte>)
    requires |ns| % 2 == 0
    ensures |raw| == |ns| / 2
  {
    seq(|ns| / 2, i requires 0 <= i < |ns| / 2 => Joined(ns[2 * i], ns[2 * i + 1]))
  }

  lemma NibblesOfBytes(ns: seq<nibble>)
    requires |ns| % 2 == 0
    ensures Nibbles(FromNibbles(ns)) == ns
  {
    var raw := FromNibbles(ns);
    forall i | 0 <= i < |ns|
      ensures Nibbles(raw)[i] == ns[i]
    {
      var b := raw[i / 2];
      assert b == Joined(ns[2 * (i / 2)], ns[2 * (i / 2) + 1]);
    }
  }

  /** 256 to the power `n`. */
  function Pow256(n: nat): (p: nat)
    ensures p > 0
  {
    if n == 0 then 1 else 256 * Pow256(n - 1)
  }

  function Unsigned(raw: seq<byte>): nat {
    if raw == [] then 0 else 256 * Unsigned(raw[..|raw| - 1]) + raw[|raw| - 1]
  }

  /** The low `w` bytes of `n`, big endian. */
  function BigEndian(n: nat, w: nat): (raw: seq<byte>)
    ensures |raw| == w
  {
    if w == 0 then [] else BigEndian(n / 256, w - 1) + [n % 256]
  }

  /** `int.from_bytes(raw, "big", signed=True)`. */
  function FromSigned(raw: seq<byte>): int {
    var u := Unsigned(raw);
    if |raw| > 0 && raw[0] >= 128 then u - Pow256(|raw|) else u
  }

  /** `value.to_bytes(w, "big", signed=True)`; a value outside the two's-complement range overflows. */
  function ToSigned(value: int, w: nat): (r: Result<seq<byte>, ()>)
    ensures r.Ok? ==> |r.value| == w
  {
    var m: int := Pow256(w);
    if -m <= 2 * value < m then Ok(BigEndian(if value < 0 then value + m else value, w)) else Err(())
  }

  lemma {:induction false} UnsignedOfBigEndian(n: nat, w: nat)
    requires n < Pow256(w)
    ensures Unsigned(BigEndian(n, w)) == n
  {
    if w == 0 {
    } else {
      UnsignedOfBigEndian(n / 256, w - 1);
      assert BigEndian(n, w)[..w - 1] == BigEndian(n / 256, w - 1);
    }
  }

  lemma {:induction false} BigEndianOfUnsigned(raw: seq<byte>)
    ensures Unsigned(raw) < Pow256(|raw|)
    ensures BigEndian(Unsigned(raw), |raw|) == raw
  {
    if raw == [] {
    } else {
      var front, last := raw[..|raw| - 1], raw[|raw| - 1];
      BigEndianOfUnsigned(front);
      LastByte(Unsigned(front), last, |raw|);
      assert raw == front + [last];
    }
  }

  lemma LastByte(high: nat, last: byte, w: nat)
    requires w > 0
    ensures BigEndian(256 * high + last, w) == BigEndian(high, w - 1) + [last]
  {
    DivUnique(256 * high + last, 256, high, last);
  }

  /** The first bit of a field says whether its number is in the upper half. */
  lemma {:induction false} HighBit(raw: seq<byte>)
    requires raw != []
    ensures Unsigned(raw) < Pow256(|raw|)
    ensures raw[0] >= 128 <==> 2 * Unsigned(raw) >= Pow256(|raw|)
  {
    var front := raw[..|raw| - 1];
    if front == [] {
      assert Unsigned(front) == 0 && Pow256(0) == 1;
    } else {
      HighBit(front);
      assert front[0] == raw[0];
    }
  }

  /** Two's complement: every value that fits a field is read back from it. */
  lemma FromSignedOfToSigned(value: int, w: nat)
    requires ToSigned(value, w).Ok?
    ensures FromSigned(ToSigned(value, w).value) == value
  {
    var m := Pow256(w);
    var n := if value < 0 then value + m else value;
    UnsignedOfBigEndian(n, w);
    if w > 0 { HighBit(BigEndian(n, w)); }
  }

  /** Two's complement: every field is the writing of exactly one value that fits it. */
  lemma ToSignedOfFromSigned(raw: seq<byte>)
    ensures ToSigned(FromSigned(raw), |raw|) == Ok(raw)
  {
    BigEndianOfUnsigned(raw);
    if raw != [] { HighBit(raw); }
  }
}
