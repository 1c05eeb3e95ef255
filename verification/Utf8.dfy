/** The UTF-8 encoding whose bytes Buffer.byteLength counts (section 3 of RFC 3629). */
module Utf8 {
  import opened Text

  function Tail(bits: nat): (byte: nat)
    ensures 0x80 <= byte < 0xC0
  {
    0x80 + bits % 0x40
  }

  function Encode(c: char): (bytes: seq<nat>) {
    var code := c as int;
    if code < 0x80 then [code]
    else if code < 0x800 then [0xC0 + code / 0x40, Tail(code)]
    else if code < 0x10000 then [0xE0 + code / 0x1000, Tail(code / 0x40), Tail(code)]
    else [0xF0 + code / 0x40000, Tail(code / 0x1000), Tail(code / 0x40), Tail(code)]
  }

  function EncodeAll(s: string): seq<nat> {
    if s == [] then [] else Encode(s[0]) + EncodeAll(s[1..])
  }

  predicate Tails(bytes: seq<nat>, n: nat) {
    n < |bytes| && forall i :: 1 <= i <= n ==> 0x80 <= bytes[i] < 0xC0
  }

  /** The code of the first character, and how many bytes it takes; none in other bytes. */
  function Decode(bytes: seq<nat>): (r: Option<(nat, nat)>)
    ensures r.Some? ==> 1 <= r.value.1 <= |bytes|
  {
    if bytes == [] then None
    else if bytes[0] < 0x80 then Some((bytes[0], 1))
    else if 0xC2 <= bytes[0] < 0xE0 && Tails(bytes, 1) then Some(((bytes[0] - 0xC0) * 0x40 + (bytes[1] - 0x80), 2))
    else if 0xE0 <= bytes[0] < 0xF0 && Tails(bytes, 2) then
      Some(((bytes[0] - 0xE0) * 0x1000 + (bytes[1] - 0x80) * 0x40 + (bytes[2] - 0x80), 3))
    else if 0xF0 <= bytes[0] < 0xF5 && Tails(bytes, 3) then
      Some(((bytes[0] - 0xF0) * 0x40000 + (bytes[1] - 0x80) * 0x1000 + (bytes[2] - 0x80) * 0x40 + (bytes[3] - 0x80), 4))
    else None
  }

  function DecodeAll(bytes: seq<nat>): (codes: Option<seq<nat>>)
    decreases |bytes|
  {
    if bytes == [] then Some([])
    else
      var first := Decode(bytes);
      if first.None? then None
      else
        var more := DecodeAll(bytes[first.value.1..]);
        if more.None? then None else Some([first.value.0] + more.value)
  }

  lemma SixBits(code: nat)
    ensures code == code / 0x40 * 0x40 + code % 0x40
    ensures code / 0x1000 == code / 0x40 / 0x40 && code / 0x40000 == code / 0x1000 / 0x40
  {
  }

  lemma BytesAreCode(code: nat)
    ensures code == code / 0x40 * 0x40 + (Tail(code) - 0x80)
    ensures code == code / 0x1000 * 0x1000 + (Tail(code / 0x40) - 0x80) * 0x40 + (Tail(code) - 0x80)
    ensures code == code / 0x40000 * 0x40000 + (Tail(code / 0x1000) - 0x80) * 0x1000 + (Tail(code / 0x40) - 0x80) * 0x40 + (Tail(code) - 0x80)
  {
    SixBits(code);
    SixBits(code / 0x40);
    SixBits(code / 0x1000);
  }

  lemma EncodeIsDecoded(c: char, rest: seq<nat>)
    ensures Decode(Encode(c) + rest) == Some((c as int, |Encode(c)|))
  {
    var e := Encode(c);
    BytesAreCode(c as int);
    hide Tail;
    FirstByte(c);
    var t := e + rest;
    assert t[0] == e[0];
    if |e| > 1 {
      assert t[1] == e[1];
    }
    if |e| > 2 {
      assert t[2] == e[2];
    }
    if |e| > 3 {
      assert t[3] == e[3];
    }
  }

  lemma FirstByte(c: char)
    ensures var code := c as int;
            && (0x80 <= code < 0x800 ==> 2 <= code / 0x40 < 0x20) && (0x800 <= code < 0x10000 ==> code / 0x1000 < 0x10)
            && (0x10000 <= code ==> code / 0x40000 < 5)
  {
  }

  function Codes(s: string): (codes: seq<nat>)
    ensures |codes| == |s|
  {
    seq(|s|, i requires 0 <= i < |s| => s[i] as nat)
  }

  lemma {:induction false} LengthsAgree(s: string)
    ensures |EncodeAll(s)| == Utf8Length(s)
  {
    hide Encode, CharBytes;
    if s != [] {
      LengthsAgree(s[1..]);
      LengthOfEncoding(s[0]);
    }
  }

  lemma DecodeCons(first: seq<nat>, rest: seq<nat>, code: nat)
    requires Decode(first + rest) == Some((code, |first|)) && DecodeAll(rest).Some?
    ensures DecodeAll(first + rest) == Some([code] + DecodeAll(rest).value)
  {
    hide Decode;
    assert (first + rest)[|first|..] == rest;
  }

  lemma {:induction false} EncodedIsDecoded(s: string)
    ensures DecodeAll(EncodeAll(s)) == Some(Codes(s))
  {
    hide Decode, Encode;
    if s != [] {
      EncodedIsDecoded(s[1..]);
      EncodeIsDecoded(s[0], EncodeAll(s[1..]));
      DecodeCons(Encode(s[0]), EncodeAll(s[1..]), s[0] as nat);
      assert Codes(s) == [s[0] as nat] + Codes(s[1..]);
    }
  }

  /** The size of a text is the number of bytes of its UTF-8 encoding, and from those
      bytes the text can be had back. */
  lemma Utf8LengthIsEncoded(s: string)
    ensures |EncodeAll(s)| == Utf8Length(s) && DecodeAll(EncodeAll(s)) == Some(Codes(s))
  {
    LengthsAgree(s);
    EncodedIsDecoded(s);
  }

  lemma LengthOfEncoding(c: char)
    ensures |Encode(c)| == CharBytes(c)
  {
  }
}
