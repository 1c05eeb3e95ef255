/** Strings as the program measures and prints them: UTF-8 lengths, JSON string
    literals, decimal numerals and separator-joined lists. */
module Text {
  /** UTF-8 bytes of one character. */
  function CharBytes(c: char): (n: nat)
    ensures 1 <= n <= 4
  {
    var code := c as int;
    if code < 0x80 then 1 else if code < 0x800 then 2 else if code < 0x10000 then 3 else 4
  }

  function Utf8Length(s: string): (n: nat)
    ensures |s| <= n <= 4 * |s|
  {
    if s == [] then 0 else CharBytes(s[0]) + Utf8Length(s[1..])
  }

  lemma {:induction false} Utf8LengthAppend(a: string, b: string)
    ensures Utf8Length(a + b) == Utf8Length(a) + Utf8Length(b)
  {
    if a == [] {
      assert a + b == b;
    } else {
      assert (a + b)[1..] == a[1..] + b;
      Utf8LengthAppend(a[1..], b);
    }
  }

  // ---- JSON string literals (section 7 of RFC 8259) ----

  function HexDigit(d: nat): (c: char)
    requires d < 16
    ensures c as int < 0x80
  {
    "0123456789abcdef"[d]
  }

  /** The text JSON.stringify prints for one character inside a string literal. */
  function EscapeChar(c: char): (s: string)
    ensures 1 <= |s| <= 6
  {
    if c == '\"' then "\\\""
    else if c == '\\' then "\\\\"
    else if c as int == 8 then "\\b"
    else if c as int == 12 then "\\f"
    else if c == '\n' then "\\n"
    else if c == '\r' then "\\r"
    else if c == '\t' then "\\t"
    else if c as int < 32 then "\\u00" + [HexDigit(c as int / 16), HexDigit(c as int % 16)]
    else [c]
  }

  function Escape(s: string): (r: string)
    ensures |s| <= |r| <= 6 * |s|
  {
    if s == [] then [] else EscapeChar(s[0]) + Escape(s[1..])
  }

  function Quote(s: string): string {
    "\"" + Escape(s) + "\""
  }

  lemma {:induction false} EscapeAppend(a: string, b: string)
    ensures Escape(a + b) == Escape(a) + Escape(b)
  {
    if a == [] {
      assert a + b == b;
    } else {
      assert (a + b)[1..] == a[1..] + b;
      EscapeAppend(a[1..], b);
      assert EscapeChar(a[0]) + (Escape(a[1..]) + Escape(b)) == EscapeChar(a[0]) + Escape(a[1..]) + Escape(b);
    }
  }

  /** Bytes of a string inside a JSON string literal. */
  function EscapedBytes(s: string): (n: nat)
    ensures |s| <= n <= 24 * |s|
  {
    Utf8Length(Escape(s))
  }

  lemma EscapedBytesAppend(a: string, b: string)
    ensures EscapedBytes(a + b) == EscapedBytes(a) + EscapedBytes(b)
  {
    EscapeAppend(a, b);
    Utf8LengthAppend(Escape(a), Escape(b));
  }

  // ---- Decimal numerals ----

  function Digit(d: nat): (c: char)
    requires d < 10
    ensures '0' <= c <= '9'
  {
    "0123456789"[d]
  }

  function Decimal(n: nat): (s: string)
    ensures |s| >= 1
    ensures forall i :: 0 <= i < |s| ==> '0' <= s[i] <= '9'
  {
    if n < 10 then [Digit(n)] else Decimal(n / 10) + [Digit(n % 10)]
  }

  function Pow10(k: nat): (p: nat)
    ensures p >= 1
  {
    if k == 0 then 1 else 10 * Pow10(k - 1)
  }

  lemma {:induction false} DecimalLength(n: nat, k: nat)
    requires k >= 1 && n < Pow10(k)
    ensures |Decimal(n)| <= k
  {
    if n >= 10 {
      assert Pow10(k) == 10 * Pow10(k - 1);
      if k > 1 {
        DecimalLength(n / 10, k - 1);
      }
    }
  }

  lemma {:induction false} DecimalBytes(n: nat)
    ensures EscapedBytes(Decimal(n)) == |Decimal(n)|
  {
    PlainBytes(Decimal(n));
  }

  ghost predicate Plain(s: string) {
    forall i :: 0 <= i < |s| ==> 32 <= s[i] as int < 0x80 && s[i] != '\"' && s[i] != '\\'
  }

  lemma {:induction false} PlainBytes(s: string)
    requires Plain(s)
    ensures Escape(s) == s && Utf8Length(s) == |s|
  {
    if s != [] {
      PlainBytes(s[1..]);
    }
  }

  lemma PlainEscapedBytes(s: string)
    requires Plain(s)
    ensures EscapedBytes(s) == |s|
  {
    PlainBytes(s);
  }

  // ---- Separator-joined lists ----

  datatype Option<+T> = None | Some(value: T)

  function Join(parts: seq<string>, separator: string): string {
    if parts == [] then "" else if |parts| == 1 then parts[0] else parts[0] + separator + Join(parts[1..], separator)
  }
}
