/** Text and its lines: whitespace trimming and splitting at line feeds, as the section
    helpers use them. */
module MarkdownLines {

  // ---- Whitespace ----

  /** U+2028 and U+2029: whitespace, and line ends that a dot in a regular expression
      does not match. */
  predicate Terminator(c: char) {
    c as int == 0x2028 || c as int == 0x2029
  }

  /** What both trim and \s take for whitespace. */
  predicate IsSpace(c: char) {
    var n := c as int;
    || 9 <= n <= 13 || n == 32 || n == 0xA0 || n == 0x1680 || 0x2000 <= n <= 0x200A || Terminator(c)
    || n == 0x202F || n == 0x205F || n == 0x3000 || n == 0xFEFF
  }

  function TrimStart(s: string): string {
    if s != [] && IsSpace(s[0]) then TrimStart(s[1..]) else s
  }

  function TrimEnd(s: string): string {
    if s != [] && IsSpace(s[|s| - 1]) then TrimEnd(s[..|s| - 1]) else s
  }

  function Trim(s: string): string {
    TrimEnd(TrimStart(s))
  }

  predicate Blank(s: string) {
    forall i :: 0 <= i < |s| ==> IsSpace(s[i])
  }

  /** No whitespace at either end. */
  predicate Trimmed(s: string) {
    s == [] || (!IsSpace(s[0]) && !IsSpace(s[|s| - 1]))
  }

  lemma {:induction false} TrimStartIs(s: string)
    ensures |TrimStart(s)| <= |s| && TrimStart(s) == s[|s| - |TrimStart(s)|..] && Blank(s[..|s| - |TrimStart(s)|])
    ensures TrimStart(s) != [] ==> !IsSpace(TrimStart(s)[0])
  {
    hide IsSpace;
    if s != [] && IsSpace(s[0]) {
      TrimStartIs(s[1..]);
      var k := |s| - |TrimStart(s)|;
      assert s[..k] == [s[0]] + s[1..][..k - 1];
    }
  }

  lemma {:induction false} TrimEndIs(s: string)
    ensures |TrimEnd(s)| <= |s| && TrimEnd(s) == s[..|TrimEnd(s)|] && Blank(s[|TrimEnd(s)|..])
    ensures TrimEnd(s) != [] ==> !IsSpace(TrimEnd(s)[|TrimEnd(s)| - 1])
  {
    hide IsSpace;
    if s != [] && IsSpace(s[|s| - 1]) {
      TrimEndIs(s[..|s| - 1]);
      var k := |TrimEnd(s)|;
      assert s[k..] == s[..|s| - 1][k..] + [s[|s| - 1]];
    }
  }

  /** A text with no whitespace at its ends between two blanks is what trimming finds. */
  lemma {:induction false} TrimFinds(a: string, s: string, b: string)
    requires Blank(a) && Blank(b) && Trimmed(s)
    ensures Trim(a + s + b) == s
    decreases |a| + |b|
  {
    hide IsSpace;
    var t := a + s + b;
    if a != [] {
      assert t[1..] == a[1..] + s + b;
      TrimFinds(a[1..], s, b);
    } else if s == [] {
      assert t == b;
      BlankTrimsAway(b);
    } else {
      assert t[0] == s[0];
      TrimEndFinds(s, b);
      assert t == s + b;
    }
  }

  lemma {:induction false} BlankTrimsAway(b: string)
    requires Blank(b)
    ensures TrimStart(b) == [] && TrimEnd(b) == []
    decreases |b|
  {
    hide IsSpace;
    if b != [] {
      BlankTrimsAway(b[1..]);
      BlankTrimsAway(b[..|b| - 1]);
    }
  }

  lemma {:induction false} TrimEndFinds(s: string, b: string)
    requires Blank(b) && (s == [] || !IsSpace(s[|s| - 1]))
    ensures TrimEnd(s + b) == s
    decreases |b|
  {
    hide IsSpace;
    if b == [] {
      assert s + b == s;
    } else {
      assert (s + b)[..|s + b| - 1] == s + b[..|b| - 1];
      TrimEndFinds(s, b[..|b| - 1]);
    }
  }

  /** What trimming leaves, and what it takes off each end. */
  lemma TrimSplits(s: string) returns (a: string, b: string)
    ensures s == a + Trim(s) + b && Blank(a) && Blank(b) && Trimmed(Trim(s))
  {
    TrimStartIs(s);
    var t := TrimStart(s);
    TrimEndIs(t);
    var u := TrimEnd(t);
    hide IsSpace, TrimStart, TrimEnd, Blank;
    a, b := s[..|s| - |t|], t[|u|..];
    assert s == a + t;
    assert t == u + b;
    Reassociate(a, u, b);
    if u != [] {
      assert u[0] == t[0];
    }
  }

  lemma Reassociate(a: string, u: string, b: string)
    ensures a + (u + b) == a + u + b
  {
  }

  lemma BlankConcat(a: string, b: string)
    ensures Blank(a + b) <==> Blank(a) && Blank(b)
  {
    hide IsSpace;
    assert forall i :: 0 <= i < |b| ==> b[i] == (a + b)[|a| + i];
    assert forall i :: 0 <= i < |a| ==> a[i] == (a + b)[i];
  }

  /** Blanks around a text do not change what trimming leaves. */
  lemma TrimWrap(a: string, s: string, b: string)
    requires Blank(a) && Blank(b)
    ensures Trim(a + s + b) == Trim(s)
  {
    var x, y := TrimSplits(s);
    BlankConcat(a, x);
    BlankConcat(y, b);
    hide IsSpace, Trim, Blank, Trimmed;
    TrimFinds(a + x, Trim(s), y + b);
    assert a + s + b == (a + x) + Trim(s) + (y + b);
  }

  lemma TrimOfTrimmed(s: string)
    requires Trimmed(s)
    ensures Trim(s) == s
  {
    TrimFinds([], s, []);
    assert [] + s + [] == s;
  }

  lemma TrimIsTrimmed(s: string)
    ensures Trimmed(Trim(s)) && Trim(Trim(s)) == Trim(s)
  {
    var a, b := TrimSplits(s);
    TrimOfTrimmed(Trim(s));
  }

  // ---- Ink ----

  /** The number of characters that are not whitespace. */
  function Ink(s: string): nat {
    if s == [] then 0 else (if IsSpace(s[0]) then 0 else 1) + Ink(s[1..])
  }

  lemma {:induction false} InkConcat(a: string, b: string)
    ensures Ink(a + b) == Ink(a) + Ink(b)
  {
    hide IsSpace;
    if a == [] {
      assert a + b == b;
    } else {
      assert (a + b)[1..] == a[1..] + b;
      InkConcat(a[1..], b);
    }
  }

  lemma {:induction false} InkOfBlank(s: string)
    ensures Blank(s) <==> Ink(s) == 0
  {
    hide IsSpace;
    if s != [] {
      InkOfBlank(s[1..]);
      assert s == [s[0]] + s[1..];
      BlankConcat([s[0]], s[1..]);
    }
  }

  lemma InkOfTrim(s: string)
    ensures Ink(Trim(s)) == Ink(s)
  {
    var a, b := TrimSplits(s);
    InkOfBlank(a);
    InkOfBlank(b);
    InkConcat(a + Trim(s), b);
    InkConcat(a, Trim(s));
  }

  // ---- Lines ----

  predicate OneLine(s: string) {
    forall i :: 0 <= i < |s| ==> s[i] != '\n'
  }

  ghost predicate AreLines(lines: seq<string>) {
    forall i :: 0 <= i < |lines| ==> OneLine(lines[i])
  }

  function SplitLines(s: string): (lines: seq<string>)
    ensures lines != []
  {
    if s == [] then [""]
    else
      Prepended(s[0], SplitLines(s[1..]))
  }

  function Prepended(c: char, lines: seq<string>): (r: seq<string>)
    requires lines != []
    ensures r != []
  {
    if c == '\n' then [""] + lines else [[c] + lines[0]] + lines[1..]
  }

  function Appended(lines: seq<string>, c: char): (r: seq<string>)
    requires lines != []
    ensures r != []
  {
    if c == '\n' then lines + [""] else lines[..|lines| - 1] + [lines[|lines| - 1] + [c]]
  }

  function JoinLines(lines: seq<string>): string
    requires lines != []
  {
    if |lines| == 1 then lines[0] else lines[0] + "\n" + JoinLines(lines[1..])
  }

  lemma {:induction false} SplitAreLines(s: string)
    ensures AreLines(SplitLines(s))
  {
    if s != [] {
      SplitAreLines(s[1..]);
      assert OneLine(SplitLines(s[1..])[0]);
    }
  }

  lemma {:induction false} SplitOneLine(s: string)
    requires OneLine(s)
    ensures SplitLines(s) == [s]
  {
    if s != [] {
      SplitOneLine(s[1..]);
      assert [s[0]] + s[1..] == s;
    }
  }

  lemma {:induction false} SplitConcat(a: string, b: string)
    ensures SplitLines(a + "\n" + b) == SplitLines(a) + SplitLines(b)
  {
    var s := a + "\n" + b;
    if a == [] {
      assert s[1..] == b;
    } else {
      assert s[1..] == a[1..] + "\n" + b;
      SplitConcat(a[1..], b);
    }
  }

  lemma {:induction false} SplitJoin(lines: seq<string>)
    requires lines != [] && AreLines(lines)
    ensures SplitLines(JoinLines(lines)) == lines
  {
    hide OneLine;
    SplitOneLine(lines[0]);
    if |lines| > 1 {
      SplitJoin(lines[1..]);
      SplitConcat(lines[0], JoinLines(lines[1..]));
    }
  }

  lemma {:induction false} JoinSplit(s: string)
    ensures JoinLines(SplitLines(s)) == s
  {
    if s != [] {
      JoinSplit(s[1..]);
      JoinPrepended(s[0], SplitLines(s[1..]));
    }
  }

  lemma JoinPrepended(c: char, lines: seq<string>)
    requires lines != []
    ensures JoinLines(Prepended(c, lines)) == [c] + JoinLines(lines)
  {
    if c != '\n' && |lines| > 1 {
      assert Prepended(c, lines)[1..] == lines[1..];
      assert [c] + lines[0] + "\n" + JoinLines(lines[1..]) == [c] + (lines[0] + "\n" + JoinLines(lines[1..]));
    }
  }

  lemma {:induction false} JoinConcat(a: seq<string>, b: seq<string>)
    requires a != [] && b != []
    ensures JoinLines(a + b) == JoinLines(a) + "\n" + JoinLines(b)
  {
    if |a| > 1 {
      assert (a + b)[1..] == a[1..] + b;
      JoinConcat(a[1..], b);
      assert a[0] + "\n" + (JoinLines(a[1..]) + "\n" + JoinLines(b)) == a[0] + "\n" + JoinLines(a[1..]) + "\n" + JoinLines(b);
    } else {
      assert (a + b)[1..] == b;
    }
  }

  /** Adding one character to a text: a new line, or one more character on the last. */
  lemma {:induction false} SplitSnoc(s: string, c: char)
    ensures SplitLines(s + [c]) == Appended(SplitLines(s), c)
  {
    if s == [] {
      var none: string := [];
      assert s + [c] == [c] && [c][1..] == none && SplitLines(none) == [none];
      assert SplitLines([c]) == Prepended(c, [none]);
      assert [c] + none == none + [c];
      assert [none][..0] == [];
    } else {
      assert (s + [c])[1..] == s[1..] + [c] && (s + [c])[0] == s[0];
      SplitSnoc(s[1..], c);
      hide SplitLines;
      PrependThenAppend(s[0], SplitLines(s[1..]), c);
    }
  }

  lemma PrependThenAppend(c: char, lines: seq<string>, d: char)
    requires lines != []
    ensures Appended(Prepended(c, lines), d) == Prepended(c, Appended(lines, d))
  {
    var n := |lines| - 1;
    var p, a := Prepended(c, lines), Appended(lines, d);
    if d == '\n' {
      assert a[1..] == lines[1..] + [""];
    } else if c == '\n' {
      assert p[..n + 1] == [""] + lines[..n];
    } else if n == 0 {
      assert [c] + lines[0] + [d] == [c] + (lines[0] + [d]);
    } else {
      assert p[..n] == [[c] + lines[0]] + lines[1..n];
      assert a[1..] == lines[1..n] + [lines[n] + [d]];
    }
  }
}
