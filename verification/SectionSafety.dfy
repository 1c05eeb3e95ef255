/** What a validated curation patch must not lose: the titled headings of a body, and the
    non-blank lines of its Evidence sections (backlog-curation-apply.ts makes Evidence
    append-only). */
module SectionSafety {
  import opened Text
  import opened MarkdownLines
  import opened SectionParser
  import opened SectionEdits
  import opened SectionAdds

  // ---- Validation ----

  function Lower(c: char): char {
    if 'A' <= c <= 'Z' then (c as int + 32) as char else c
  }

  function LowerCase(s: string): string {
    seq(|s|, i requires 0 <= i < |s| => Lower(s[i]))
  }

  predicate IsEvidence(heading: string) {
    LowerCase(Trim(heading)) == "evidence"
  }

  /** validatePatchBasics: a heading is a single non-empty line that does not start with
      a hash, and Evidence is never replaced. */
  predicate ValidOperation(op: Operation) {
    var heading := Trim(op.heading);
    && heading != "" && OneLine(heading) && '\r' !in heading && heading[0] != '#'
    && (IsEvidence(op.heading) ==> op.action.Append?)
  }

  ghost predicate ValidOperations(ops: seq<Operation>) {
    forall i :: 0 <= i < |ops| ==> ValidOperation(ops[i])
  }

  lemma TitleIsEvidence(op: Operation)
    ensures IsEvidence(Trim(op.heading)) <==> IsEvidence(op.heading)
  {
    TrimIsTrimmed(op.heading);
    hide Trim, LowerCase;
  }

  // ---- What must not be lost ----

  /** A heading with a title that is not empty. */
  predicate IsTitled(line: string) {
    IsHeading(line) && HeadingTitle(line) != Some("")
  }

  /** The titled heading lines, trimmed. */
  function Headings(lines: seq<string>): multiset<string> {
    if lines == [] then multiset{}
    else (if IsTitled(lines[0]) then multiset{Trim(lines[0])} else multiset{}) + Headings(lines[1..])
  }

  /** The non-blank lines, trimmed. */
  function Inked(lines: seq<string>): multiset<string> {
    if lines == [] then multiset{}
    else (if Trim(lines[0]) == "" then multiset{} else multiset{Trim(lines[0])}) + Inked(lines[1..])
  }

  /** The section a body is in after the lines. */
  function LastTitle(title: string, lines: seq<string>): string
    decreases |lines|
  {
    if lines == [] then title
    else LastTitle(if IsHeading(lines[0]) then HeadingTitle(lines[0]).value else title, lines[1..])
  }

  /** The non-blank lines of Evidence sections, trimmed. */
  function Evidence(title: string, lines: seq<string>): multiset<string>
    decreases |lines|
  {
    if lines == [] then multiset{}
    else if IsHeading(lines[0]) then Evidence(HeadingTitle(lines[0]).value, lines[1..])
    else (if IsEvidence(title) && Trim(lines[0]) != "" then multiset{Trim(lines[0])} else multiset{}) + Evidence(title, lines[1..])
  }

  lemma {:induction false} InkedConcat(a: seq<string>, b: seq<string>)
    ensures Inked(a + b) == Inked(a) + Inked(b)
  {
    hide Trim;
    if a == [] {
      assert a + b == b;
    } else {
      assert (a + b)[1..] == a[1..] + b;
      InkedConcat(a[1..], b);
    }
  }

  lemma {:induction false} EvidenceConcat(title: string, a: seq<string>, b: seq<string>)
    ensures Evidence(title, a + b) == Evidence(title, a) + Evidence(LastTitle(title, a), b)
    decreases |a|
  {
    hide HeadingTitle, Trim, IsEvidence;
    if a == [] {
      assert a + b == b;
    } else {
      assert (a + b)[1..] == a[1..] + b;
      EvidenceConcat(if IsHeading(a[0]) then HeadingTitle(a[0]).value else title, a[1..], b);
    }
  }

  lemma {:induction false} LastTitleConcat(title: string, a: seq<string>, b: seq<string>)
    ensures LastTitle(title, a + b) == LastTitle(LastTitle(title, a), b)
    decreases |a|
  {
    hide HeadingTitle;
    if a == [] {
      assert a + b == b;
    } else {
      assert (a + b)[1..] == a[1..] + b;
      LastTitleConcat(if IsHeading(a[0]) then HeadingTitle(a[0]).value else title, a[1..], b);
    }
  }

  lemma {:induction false} HeadingFreeLines(title: string, lines: seq<string>)
    requires HeadingFree(lines)
    ensures LastTitle(title, lines) == title
    ensures Evidence(title, lines) == if IsEvidence(title) then Inked(lines) else multiset{}
    decreases |lines|
  {
    hide HeadingTitle, Trim, IsEvidence, IsHeading;
    if lines != [] {
      assert !IsHeading(lines[0]);
      assert forall i :: 0 <= i < |lines| - 1 ==> lines[1..][i] == lines[i + 1];
      HeadingFreeLines(title, lines[1..]);
    }
  }

  lemma {:induction false} StartsInSection(title: string, front: seq<string>, heading: string)
    requires front != [] && Titled(front[|front| - 1], heading)
    ensures LastTitle(title, front) == heading
    decreases |front|
  {
    hide HeadingTitle;
    if |front| > 1 {
      StartsInSection(if IsHeading(front[0]) then HeadingTitle(front[0]).value else title, front[1..], heading);
    } else {
      assert front[1..] == [];
    }
  }

  // ---- Lines that look like headings ----

  /** Looks like a heading line once trimmed. */
  predicate Marked(line: string) {
    var t := Trim(line);
    2 <= Hashes(t) <= 6 && (AfterHashes(t) == [] || IsSpace(AfterHashes(t)[0]))
  }

  lemma MarkedByInk(a: string, b: string)
    ensures Trim(a) == Trim(b) ==> (Marked(a) <==> Marked(b))
  {
    hide Trim;
  }

  lemma EmptyFacts()
    ensures Trim("") == "" && !Marked("") && !IsHeading("") && !IsTitled("") && !HasTerminator("") && Kept("") == ""
    ensures forall last :: !EndsRegion("", last)
  {
  }

  lemma MarkerIsMarked(line: string)
    requires Marker(line)
    ensures Marked(line)
  {
    var h, rest := Hashes(line), AfterHashes(line);
    var front := line[..h];
    assert line == front + rest && |front| == h && front[0] == '#';
    TrimKeepsFront(front, rest);
    hide IsSpace, Trim, TrimEnd;
    TrimEndIs(rest);
    HashesOf(front, TrimEnd(rest));
    assert TrimEnd(rest) != [] ==> TrimEnd(rest)[0] == rest[0];
  }

  lemma EndsIsMarked(line: string, last: bool)
    requires EndsRegion(line, last)
    ensures Marked(line)
  {
    if Marker(line) {
      MarkerIsMarked(line);
    } else {
      assert line == line[..Hashes(line)];
      TrimOfTrimmed(line);
    }
  }

  lemma EndsIfHeading(line: string, last: bool)
    requires IsHeading(line)
    ensures EndsRegion(line, last) && Marked(line) && Trim(line) != ""
  {
    assert Marker(line);
    hide Hashes, AfterHashes, TitleOf, Trim;
    MarkerIsMarked(line);
    EmptyFacts();
  }

  /** A line that looks like a heading and starts with ink ends an edited region. */
  lemma MarkedAtStart(line: string)
    requires Marked(line) && (line == [] || !IsSpace(line[0]))
    ensures EndsRegion(line, false)
  {
    var t := Trim(line);
    TrimEndIs(line);
    assert TrimStart(line) == line && t == line[..|t|];
    hide Trim, TrimEnd;
    var h := Hashes(t);
    assert line == t[..h] + line[h..] && (h < |t| ==> line[h] == t[h]);
    assert h == |t| ==> Blank(line[h..]);
    HashesOf(t[..h], line[h..]);
  }

  /** Trimming a line that starts and whose front ends with ink trims only what follows. */
  lemma TrimKeepsFront(front: string, rest: string)
    requires front != [] && !IsSpace(front[0]) && !IsSpace(front[|front| - 1])
    ensures Trim(front + rest) == front + TrimEnd(rest)
  {
    hide *;
    TrimEndIs(rest);
    var u := TrimEnd(rest);
    var b := rest[|u|..];
    TrimmedFront(front, u);
    NewlineIsBlank();
    TrimFinds("", front + u, b);
    assert rest == u + b;
    Reassociate(front, u, b);
    assert "" + (front + u) + b == front + u + b;
  }

  lemma TrimmedFront(front: string, u: string)
    requires front != [] && !IsSpace(front[0]) && !IsSpace(front[|front| - 1]) && (u == [] || !IsSpace(u[|u| - 1]))
    ensures Trimmed(front + u)
  {
    hide IsSpace;
    var s := front + u;
    assert s[0] == front[0] && s[|s| - 1] == if u == [] then front[|front| - 1] else u[|u| - 1];
  }

  lemma {:induction false} HashesOf(front: string, rest: string)
    requires (forall i :: 0 <= i < |front| ==> front[i] == '#') && (rest == [] || rest[0] != '#')
    ensures Hashes(front + rest) == |front| && AfterHashes(front + rest) == rest
  {
    if front == [] {
      assert front + rest == rest;
    } else {
      assert (front + rest)[1..] == front[1..] + rest;
      HashesOf(front[1..], rest);
      assert (front + rest)[|front|..] == rest;
    }
  }

  // ---- Trimming a text keeps its ink ----

  lemma TrimFirst(c: char, line: string)
    requires IsSpace(c)
    ensures Trim([c] + line) == Trim(line)
  {
    assert Blank([c]) && Blank("");
    TrimWrap([c], line, "");
    assert [c] + line + "" == [c] + line;
  }

  lemma TrimLast(line: string, c: char)
    requires IsSpace(c)
    ensures Trim(line + [c]) == Trim(line)
  {
    assert Blank([c]) && Blank("");
    TrimWrap("", line, [c]);
    assert "" + line + [c] == line + [c];
  }

  /** One whitespace character less in front: the same ink. */
  lemma StepStart(c: char, lines: seq<string>)
    requires lines != [] && IsSpace(c)
    ensures Inked(Prepended(c, lines)) == Inked(lines)
  {
    hide IsSpace, Trim;
    EmptyFacts();
    if c == '\n' {
      InkedConcat([""], lines);
    } else {
      TrimFirst(c, lines[0]);
      assert Prepended(c, lines)[1..] == lines[1..];
    }
  }

  /** And at the end. */
  lemma StepEnd(lines: seq<string>, c: char)
    requires lines != [] && IsSpace(c)
    ensures Inked(Appended(lines, c)) == Inked(lines)
  {
    hide IsSpace, Trim, Inked;
    EmptyFacts();
    InkOfLine("");
    var front, last := lines[..|lines| - 1], lines[|lines| - 1];
    assert lines == front + [last];
    if c == '\n' {
      InkedConcat(lines, [""]);
    } else {
      TrimLast(last, c);
      InkedConcat(front, [last]);
      InkedConcat(front, [last + [c]]);
      InkOfLine(last);
      InkOfLine(last + [c]);
    }
  }

  lemma InkOfLine(line: string)
    ensures Inked([line]) == if Trim(line) == "" then multiset{} else multiset{Trim(line)}
  {
    hide Trim;
    assert [line][1..] == [];
  }

  lemma {:induction false} TrimStartInk(x: string)
    ensures Inked(SplitLines(TrimStart(x))) == Inked(SplitLines(x))
  {
    hide IsSpace, Inked;
    if x != [] && IsSpace(x[0]) {
      TrimStartInk(x[1..]);
      StepStart(x[0], SplitLines(x[1..]));
    }
  }

  lemma {:induction false} TrimEndInk(x: string)
    ensures Inked(SplitLines(TrimEnd(x))) == Inked(SplitLines(x))
    decreases |x|
  {
    hide IsSpace, Inked, SplitLines;
    if x != [] && IsSpace(x[|x| - 1]) {
      var y := x[..|x| - 1];
      assert x == y + [x[|x| - 1]];
      SplitSnoc(y, x[|x| - 1]);
      TrimEndInk(y);
      StepEnd(SplitLines(y), x[|x| - 1]);
    }
  }

  lemma NoInk()
    ensures Inked([""]) == multiset{} && Inked([]) == multiset{}
  {
    EmptyFacts();
    InkOfLine("");
  }

  /** The text of a region has the ink of its lines. */
  lemma RegionInk(was: seq<string>)
    requires AreLines(was)
    ensures Inked(SplitLines(Trim(RegionText(was)))) == Inked(was)
  {
    hide Inked, SplitLines, TrimStart, TrimEnd, OneLine;
    TrimStartInk(RegionText(was));
    TrimEndInk(TrimStart(RegionText(was)));
    if was != [] {
      SplitJoin(was);
    } else {
      EmptyLines();
      NoInk();
    }
  }
}
