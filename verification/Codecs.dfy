/** Single-byte text encodings, given as a partial map from bytes to characters and its inverse. */
module Codecs {
  import opened Bytes
  import opened Results

  datatype Codec = Codec(decode: map<byte, char>, encode: map<char, byte>) {

    /** The two maps undo each other; a blank can be written. */
    ghost predicate Valid() {
      && (forall b :: b in decode ==> decode[b] in encode && encode[decode[b]] == b)
      && (forall c :: c in encode ==> encode[c] in decode && decode[encode[c]] == c)
      && ' ' in encode
    }

    /** `codecs.decode(raw, encoding, "strict")`; the error is the position of the first unmapped byte. */
    function Decode(raw: seq<byte>): (r: Result<string, nat>)
      ensures r.Ok? ==> |r.value| == |raw|
      ensures r.Err? ==> r.error < |raw| && raw[r.error] !in decode
    {
      if raw == [] then Ok("")
      else
        match Decode(raw[..|raw| - 1])
        case Err(k) => Err(k)
        case Ok(front) =>
          var b := raw[|raw| - 1];
          if b in decode then Ok(front + [decode[b]]) else Err(|raw| - 1)
    }

    /** `codecs.encode(text, encoding)`. */
    function Encode(text: string): (r: Result<seq<byte>, nat>)
      ensures r.Ok? ==> |r.value| == |text|
      ensures r.Err? ==> r.error < |text| && text[r.error] !in encode
    {
      if text == "" then Ok([])
      else
        match Encode(text[..|text| - 1])
        case Err(k) => Err(k)
        case Ok(front) =>
          var c := text[|text| - 1];
          if c in encode then Ok(front + [encode[c]]) else Err(|text| - 1)
    }

    /** Decoding succeeds exactly when every byte is mapped, and then maps byte by byte. */
    lemma {:induction false} DecodeBytewise(raw: seq<byte>)
      ensures Decode(raw).Ok? <==> forall i :: 0 <= i < |raw| ==> raw[i] in decode
      ensures Decode(raw).Ok? ==> forall i :: 0 <= i < |raw| ==> raw[i] in decode && Decode(raw).value[i] == decode[raw[i]]
    {
      if raw == [] {
      } else {
        DecodeBytewise(raw[..|raw| - 1]);
        assert raw == raw[..|raw| - 1] + [raw[|raw| - 1]];
      }
    }

    lemma {:induction false} EncodeCharwise(text: string)
      ensures Encode(text).Ok? <==> forall i :: 0 <= i < |text| ==> text[i] in encode
      ensures Encode(text).Ok? ==>
                forall i :: 0 <= i < |text| ==> text[i] in encode && Encode(text).value[i] == encode[text[i]]
    {
      if text == "" {
      } else {
        EncodeCharwise(text[..|text| - 1]);
        assert text == text[..|text| - 1] + [text[|text| - 1]];
      }
    }

    /** Text that can be written is read back. */
    lemma DecodeOfEncode(text: string)
      requires Valid() && Encode(text).Ok?
      ensures Decode(Encode(text).value) == Ok(text)
    {
      var raw := Encode(text).value;
      EncodeCharwise(text);
      DecodeBytewise(raw);
      assert Decode(raw).value == text;
    }

    /** Bytes that can be read are written back. */
    lemma EncodeOfDecode(raw: seq<byte>)
      requires Valid() && Decode(raw).Ok?
      ensures Encode(Decode(raw).value) == Ok(raw)
    {
      var text := Decode(raw).value;
      DecodeBytewise(raw);
      EncodeCharwise(text);
      assert Encode(text).value == raw;
    }
  }

  /** `text.rstrip(" ")`. */
  function Rstrip(text: string): (r: string)
    ensures |r| <= |text| && r == text[..|r|]
    ensures r == "" || r[|r| - 1] != ' '
  {
    if text != "" && text[|text| - 1] == ' ' then Rstrip(text[..|text| - 1]) else text
  }

  /** `text.ljust(n)`. */
  function Ljust(text: string, n: nat): (r: string)
    ensures |r| >= |text| && |r| >= n && r[..|text|] == text
    ensures |text| <= n ==> |r| == n
  {
    if |text| >= n then text else text + seq(n - |text|, _ => ' ')
  }

  /** `raw.ljust(n, pad)`. */
  function LjustBytes(raw: seq<byte>, n: nat, pad: byte): (r: seq<byte>)
    ensures |raw| <= n ==> |r| == n
  {
    if |raw| >= n then raw else raw + seq(n - |raw|, _ => pad)
  }

  /** What is stripped is blanks, all of the trailing ones, and padding adds nothing but blanks. */
  lemma {:induction false} RstripExactly(text: string, k: nat)
    ensures k <= |text| && Rstrip(text) == text[..k] <==>
              k <= |text| && (k == 0 || text[k - 1] != ' ') && forall j :: k <= j < |text| ==> text[j] == ' '
  {
    if text != "" && text[|text| - 1] == ' ' { RstripExactly(text[..|text| - 1], k); }
  }

  lemma {:induction false} RstripTwice(text: string)
    ensures Rstrip(Rstrip(text)) == Rstrip(text)
  {
  }
}
