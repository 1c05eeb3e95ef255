/** Edits of a section that the body does not have yet, and edits as updates of the
    parsed sections. */
module SectionAdds {
  import opened Text
  import opened MarkdownLines
  import opened SectionParser
  import opened SectionEdits

  // ---- Whitespace at the end of a body ----

  ghost predicate AllTitled(lines: seq<string>) {
    forall i :: 0 <= i < |lines| ==> HeadingTitle(lines[i]) != Some("")
  }

  lemma {:induction false} HashesSnoc(line: string, c: char)
    requires c != '#'
    ensures Hashes(line + [c]) == Hashes(line)
  {
    if line != [] {
      assert (line + [c])[1..] == line[1..] + [c];
      HashesSnoc(line[1..], c);
    }
  }

  lemma {:induction false} TrimStartSnoc(s: string, c: char)
    requires IsSpace(c)
    ensures TrimStart(s + [c]) == if TrimStart(s) == [] then [] else TrimStart(s) + [c]
  {
    if s == [] {
      assert s + [c] == [c] && [c][1..] == [];
    } else {
      assert (s + [c])[1..] == s[1..] + [c];
      TrimStartSnoc(s[1..], c);
    }
  }

  lemma TitleOfSnoc(rest: string, c: char)
    requires rest != [] && IsSpace(c) && !HasTerminator(rest + [c]) && TitleOf(rest + [c]) != Some("")
    ensures TitleOf(rest) == TitleOf(rest + [c])
  {
    assert !Terminator((rest + [c])[|rest|]);
    NoTerminatorPrefix(rest, c);
    TrimStartSnoc(rest, c);
    TrimStartIs(rest);
    var t := TrimStart(rest);
    TailHasNoTerminator(rest + [c], |rest| - |t|);
    hide IsSpace, HasTerminator, TrimStart, Blank;
    if t != [] {
      assert (rest + [c])[|rest| - |t|..] == t + [c];
      NoTerminatorPrefix(t, c);
      assert (t + [c])[..|t + [c]| - 1] == t;
    }
  }

  /** Whitespace after a line does not change its title, except that it can make bare
      hashes an untitled heading. */
  lemma TitleSnoc(line: string, c: char)
    requires IsSpace(c) && !HasTerminator(line + [c]) && HeadingTitle(line + [c]) != Some("")
    ensures HeadingTitle(line) == HeadingTitle(line + [c]) && !HasTerminator(line)
  {
    var rest := AfterHashes(line);
    HashesSnoc(line, c);
    assert AfterHashes(line + [c]) == rest + [c];
    TailHasNoTerminator(line + [c], Hashes(line));
    NoTerminatorPrefix(line, c);
    if rest == [] {
      assert rest + [c] == [c];
      TrimStartSnoc([], c);
      assert [] + [c] == [c];
    } else {
      hide HasTerminator, Hashes, TitleOf, IsSpace;
      if 2 <= Hashes(line) <= 6 && IsSpace(rest[0]) {
        TitleOfSnoc(rest, c);
      }
    }
  }

  lemma NoTerminatorPrefix(t: string, c: char)
    requires !HasTerminator(t + [c])
    ensures !HasTerminator(t)
  {
    assert forall i :: 0 <= i < |t| ==> t[i] == (t + [c])[i];
  }

  lemma RegionTextSnoc(region: seq<string>, line: string)
    ensures region == [] ==> RegionText(region + [line]) == line
    ensures region != [] ==> RegionText(region + [line]) == RegionText(region) + "\n" + line
  {
    if region != [] {
      JoinConcat(region, [line]);
    } else {
      assert region + [line] == [line];
    }
  }

  /** One more blank character at the end of the open region closes to the same sections. */
  lemma ClosedSnoc(p: Parse, line: string, c: char)
    requires IsSpace(c)
    ensures Closed(p.(region := p.region + [line + [c]])) == Closed(p.(region := p.region + [line]))
  {
    RegionTextSnoc(p.region, line);
    RegionTextSnoc(p.region, line + [c]);
    var text := RegionText(p.region + [line]);
    TrimWrap("", text, [c]);
    assert "" + text + [c] == text + [c];
    assert RegionText(p.region) + "\n" + (line + [c]) == RegionText(p.region) + "\n" + line + [c];
    hide IsSpace, Trim, RegionText;
  }

  lemma ClosedEmptyLine(p: Parse)
    ensures Closed(p.(region := p.region + [""])) == Closed(p)
  {
    RegionTextSnoc(p.region, "");
    NewlineIsBlank();
    TrimWrap("", RegionText(p.region), "\n");
    assert "" + RegionText(p.region) + "\n" == RegionText(p.region) + "\n" + "";
    hide Trim, RegionText;
  }

  lemma SectionsSnoc(x: string, c: char)
    requires IsSpace(c) && Whole(SplitLines(x + [c])) && AllTitled(SplitLines(x + [c]))
    ensures Sections(SplitLines(x + [c])) == Sections(SplitLines(x))
    ensures Whole(SplitLines(x)) && AllTitled(SplitLines(x))
  {
    SplitSnoc(x, c);
    var lines, more := SplitLines(x), SplitLines(x + [c]);
    var front, last := lines[..|lines| - 1], lines[|lines| - 1];
    var start := Parse(map[], "", []);
    assert lines == front + [last];
    hide IsSpace, Trim, RegionText, HeadingTitle, SplitLines, HasTerminator, ParseLines;
    EmptyIsNoHeading();
    if c == '\n' {
      assert more == lines + [""];
      assert forall i :: 0 <= i < |lines| ==> lines[i] == more[i];
      ParseConcat(start, lines, [""]);
      ParseOne(ParseLines(start, lines), "");
      ClosedEmptyLine(ParseLines(start, lines));
    } else {
      assert more == front + [last + [c]];
      assert more[|lines| - 1] == last + [c];
      assert forall i :: 0 <= i < |lines| - 1 ==> lines[i] == more[i];
      TitleSnoc(last, c);
      ParseConcat(start, front, [last]);
      ParseConcat(start, front, [last + [c]]);
      ParseOne(ParseLines(start, front), last);
      ParseOne(ParseLines(start, front), last + [c]);
      ClosedSnoc(ParseLines(start, front), last, c);
    }
  }

  lemma {:induction false} SectionsTrimEnd(x: string)
    requires Whole(SplitLines(x)) && AllTitled(SplitLines(x))
    ensures Sections(SplitLines(TrimEnd(x))) == Sections(SplitLines(x))
    decreases |x|
  {
    hide Sections, SplitLines, IsSpace, Whole, AllTitled;
    if x != [] && IsSpace(x[|x| - 1]) {
      var y := x[..|x| - 1];
      assert x == y + [x[|x| - 1]];
      SectionsSnoc(y, x[|x| - 1]);
      SectionsTrimEnd(y);
    }
  }

  // ---- New sections ----

  lemma HeadingLine(title: string)
    requires Trimmed(title) && title != "" && !HasTerminator(title)
    ensures Titled("## " + title, title)
  {
    var line := "## " + title;
    var one := "# " + title;
    assert Hashes(" " + title) == 0 && one[1..] == " " + title;
    assert Hashes(one) == 1 && line[1..] == one;
    assert Hashes(line) == 2 && AfterHashes(line) == " " + title;
    var rest := " " + title;
    assert rest[1..] == title && IsSpace(rest[0]);
    assert TrimStart(title) == title && TrimEnd(title) == title;
    assert TrimStart(rest) == title;
    assert TitleOf(rest) == Some(title);
    hide HasTerminator;
  }

  function Heading(title: string): string {
    "## " + title
  }

  lemma NewSectionLines(body: string, title: string, content: string)
    requires OneLine(title)
    ensures SplitLines(NewSection(body, title, content))
         == SplitLines(TrimEnd(body)) + ["", Heading(title), ""] + SplitLines(Trim(content)) + [""]
  {
    var t, h, c := TrimEnd(body), Heading(title), Trim(content);
    hide Trim, TrimEnd, SplitLines;
    EmptyLines();
    SplitOneLine(h);
    SplitConcat(t, "");
    SplitConcat(t + "\n" + "", h);
    SplitConcat(t + "\n" + "" + "\n" + h, "");
    SplitConcat(t + "\n" + "" + "\n" + h + "\n" + "", c);
    SplitConcat(t + "\n" + "" + "\n" + h + "\n" + "" + "\n" + c, "");
    assert t + "\n" + "" + "\n" + h + "\n" + "" + "\n" + c + "\n" + "" == NewSection(body, title, content);
  }

  lemma EmptyLines()
    ensures SplitLines("") == [""]
  {
  }

  /** An operation on a heading the body does not have adds the section with the trimmed
      content and changes nothing else the parser finds. */
  lemma AddedSection(body: string, op: Operation, title: string)
    requires Whole(SplitLines(body)) && AllTitled(SplitLines(body)) && title == Trim(op.heading)
    requires title != "" && OneLine(title) && !HasTerminator(title)
    requires FindStart(SplitLines(body), title, 0) == |SplitLines(body)| && HeadingFree(SplitLines(Trim(op.content)))
    ensures Sections(SplitLines(Edited(body, op))) == Sections(SplitLines(body))[title := Trim(op.content)]
  {
    hide Trim, SplitLines, Whole, AllTitled, HasTerminator, RegionText, FindStart, Trimmed, Heading, Sections, Titled;
    var t, c := SplitLines(TrimEnd(body)), Trim(op.content);
    TrimIsTrimmed(op.heading);
    TrimIsTrimmed(op.content);
    SectionsTrimEnd(body);
    NewSectionLines(body, title, op.content);
    HeadingLine(title);
    HeadingIs(title);
    MiddleText(["", ""], 0, c, []);
    MiddleIsHeadingFree(["", ""], 0, c);
    var middle := Gap(["", ""], 0) + SplitLines(c) + [""];
    SectionsWith(t, Heading(title), title, middle);
    assert middle + [] == middle;
    assert t + ["", Heading(title), ""] + SplitLines(c) + [""] == t + [""] + [Heading(title)] + middle;
  }

  /** The parse of a body with one more section behind an empty line. */
  lemma SectionsWith(lines: seq<string>, heading: string, title: string, middle: seq<string>)
    requires Titled(heading, title) && title != "" && HeadingFree(middle)
    ensures Sections(lines + [""] + [heading] + middle) == Sections(lines)[title := Trim(RegionText(middle))]
  {
    EmptyIsNoHeading();
    hide Trim, HeadingTitle, ParseLines, RegionText;
    var start := Parse(map[], "", []);
    var p := ParseLines(start, lines);
    ParseConcat(start, lines, [""]);
    ParseOne(p, "");
    var q := ParseLine(p, "");
    ClosedEmptyLine(p);
    ParseConcat(start, lines + [""], [heading]);
    ParseOne(q, heading);
    ParseConcat(start, lines + [""] + [heading], middle);
    ParseRegion(Parse(Closed(q), title, []), middle);
    assert [] + middle == middle;
  }

  lemma HeadingIs(title: string)
    requires Titled("## " + title, title)
    ensures Titled(Heading(title), title)
  {
  }

  /** An edit of a section with a distinct title, ending where the section does and with
      heading-free new text, updates the parsed sections at that title and nowhere else. */
  lemma EditUpdatesSections(body: string, op: Operation, title: string, start: nat, content: string)
    requires Whole(SplitLines(body)) && title == Trim(op.heading) && title != ""
    requires start == FindStart(SplitLines(body), title, 0) && start < |SplitLines(body)|
    requires content == Content(op, Region(SplitLines(body), start)) && HeadingFree(SplitLines(content))
    requires NoneTitled(SplitLines(body)[start + 1..], title) && EndsWithSection(SplitLines(body), start)
    ensures Sections(SplitLines(Edited(body, op))) == Sections(SplitLines(body))[title := Trim(content)]
  {
    hide Sections, Edited, FindStart, Region, Content, Whole, HeadingFree, NoneTitled, EndsWithSection, Trim, SplitLines;
    EditedSection(body, op, title, start, content);
    forall other | other != title
      ensures (other in Sections(SplitLines(Edited(body, op)))) == (other in Sections(SplitLines(body)))
      ensures other in Sections(SplitLines(body)) ==> Sections(SplitLines(Edited(body, op)))[other] == Sections(SplitLines(body))[other]
    {
      EditKeepsOtherSections(body, op, title, start, content, other);
    }
    var before, after := Sections(SplitLines(body)), Sections(SplitLines(Edited(body, op)));
    assert forall k :: k in after <==> k in before[title := Trim(content)];
  }

  // ---- Headings inside the new text ----

  function InkOfLines(lines: seq<string>): nat {
    if lines == [] then 0 else Ink(lines[0]) + InkOfLines(lines[1..])
  }

  lemma {:induction false} InkOfLinesConcat(a: seq<string>, b: seq<string>)
    ensures InkOfLines(a + b) == InkOfLines(a) + InkOfLines(b)
  {
    hide Ink;
    if a == [] {
      assert a + b == b;
    } else {
      assert (a + b)[1..] == a[1..] + b;
      InkOfLinesConcat(a[1..], b);
    }
  }

  lemma {:induction false} InkOfRegion(lines: seq<string>)
    ensures Ink(RegionText(lines)) == InkOfLines(lines)
  {
    if |lines| == 1 {
      assert InkOfLines(lines[1..]) == 0;
    } else if |lines| > 1 {
      InkOfRegion(lines[1..]);
      InkConcat(lines[0] + "\n", JoinLines(lines[1..]));
      InkConcat(lines[0], "\n");
      assert Ink("\n") == 0;
    }
  }

  /** A part of the lines that leaves out one with ink has less ink. */
  lemma PartHasLessInk(lines: seq<string>, i: nat, j: nat, k: nat)
    requires i <= j <= |lines| && k < |lines| && !(i <= k < j) && Ink(lines[k]) > 0
    ensures InkOfLines(lines[i..j]) < InkOfLines(lines)
  {
    hide Ink;
    assert lines == lines[..i] + lines[i..j] + lines[j..];
    InkOfLinesConcat(lines[..i] + lines[i..j], lines[j..]);
    InkOfLinesConcat(lines[..i], lines[i..j]);
    if k < i {
      LineHasInk(lines[..i], k);
    } else {
      LineHasInk(lines[j..], k - j);
    }
  }

  lemma {:induction false} LineHasInk(lines: seq<string>, k: nat)
    requires k < |lines| && Ink(lines[k]) > 0
    ensures InkOfLines(lines) > 0
  {
    hide Ink;
    if k > 0 {
      LineHasInk(lines[1..], k - 1);
    }
  }

  lemma HeadingHasInk(line: string)
    requires IsHeading(line)
    ensures Ink(line) > 0
  {
    assert Marker(line) && line[0] == '#';
    InkOfBlank(line);
    hide Ink;
  }

  /** The last line with the title, or -1. */
  function LastTitled(lines: seq<string>, title: string): int {
    if lines == [] then -1
    else if Titled(lines[|lines| - 1], title) then |lines| - 1
    else LastTitled(lines[..|lines| - 1], title)
  }

  lemma {:induction false} LastTitledIs(lines: seq<string>, title: string)
    ensures -1 <= LastTitled(lines, title) < |lines|
    ensures LastTitled(lines, title) >= 0 ==> Titled(lines[LastTitled(lines, title)], title)
    ensures forall i :: LastTitled(lines, title) < i < |lines| ==> !Titled(lines[i], title)
  {
    hide Titled;
    if lines != [] && !Titled(lines[|lines| - 1], title) {
      LastTitledIs(lines[..|lines| - 1], title);
    }
  }

  lemma NoneTitledConcat(a: seq<string>, b: seq<string>, title: string)
    requires NoneTitled(a, title) && NoneTitled(b, title)
    ensures NoneTitled(a + b, title)
  {
    hide Titled;
  }

  /** The section of the last heading with the title in lines followed by a heading, or
      by nothing, is within those lines. */
  lemma SectionWithin(all: seq<string>, s: nat, tail: seq<string>, back: seq<string>, title: string)
    requires s < |all| && Titled(all[s], title) && title != "" && all[s + 1..] == tail + back
    requires NoneTitled(tail, title) && NoneTitled(back, title) && (back == [] || IsHeading(back[0]))
    ensures title in Sections(all)
    ensures Leading(tail + back) <= |tail| && Ink(Sections(all)[title]) == InkOfLines(tail[..Leading(tail + back)])
  {
    hide Titled, Sections, Ink, Trim, RegionText, IsHeading, NoneTitled;
    var n := Leading(tail + back);
    NoneTitledConcat(tail, back, title);
    SectionIs(all, s, title);
    LeadingStops(tail, back);
    assert (tail + back)[..n] == tail[..n];
    InkOfTrim(RegionText(tail[..n]));
    InkOfRegion(tail[..n]);
  }

  /** With a heading among its lines, a section's parsed text has less ink than they have. */
  lemma SectionIsCutShort(front: seq<string>, middle: seq<string>, back: seq<string>, start: nat, title: string)
    requires |front| == start + 1 && Titled(front[start], title) && title != "" && NoneTitled(back, title)
    requires (back == [] || IsHeading(back[0])) && !HeadingFree(middle)
    ensures title in Sections(front + middle + back)
    ensures Ink(Sections(front + middle + back)[title]) < InkOfLines(middle)
  {
    hide Titled, Sections, Ink, IsHeading, NoneTitled, LastTitled, InkOfLines, HeadingFree;
    LastTitledIs(middle, title);
    var j := LastTitled(middle, title);
    if j >= 0 {
      NoneTitledAfter(middle, j, title);
      CutAfter(front, middle, back, j, title);
    } else {
      NoneTitledAfter(middle, -1, title);
      assert middle[0..] == middle;
      CutBefore(front, middle, back, start, title);
    }
  }

  lemma NoneTitledAfter(lines: seq<string>, j: int, title: string)
    requires -1 <= j < |lines| && forall i :: j < i < |lines| ==> !Titled(lines[i], title)
    ensures NoneTitled(lines[j + 1..], title)
  {
    hide Titled;
  }

  /** The title comes again inside: the section is what follows its last heading. */
  lemma CutAfter(front: seq<string>, middle: seq<string>, back: seq<string>, j: nat, title: string)
    requires j < |middle| && Titled(middle[j], title) && title != "" && NoneTitled(middle[j + 1..], title) && NoneTitled(back, title)
    requires back == [] || IsHeading(back[0])
    ensures title in Sections(front + middle + back)
    ensures Ink(Sections(front + middle + back)[title]) < InkOfLines(middle)
  {
    hide Titled, Sections, Ink, IsHeading, NoneTitled, InkOfLines;
    var all, tail := front + middle + back, middle[j + 1..];
    assert all[|front| + j] == middle[j] && all[|front| + j + 1..] == tail + back;
    SectionWithin(all, |front| + j, tail, back, title);
    var n := Leading(tail + back);
    assert tail[..n] == middle[j + 1..j + 1 + n];
    TitledHasInk(middle[j], title);
    PartHasLessInk(middle, j + 1, j + 1 + n, j);
  }

  /** Only other titles come inside: the section ends at the first of them. */
  lemma CutBefore(front: seq<string>, middle: seq<string>, back: seq<string>, start: nat, title: string)
    requires |front| == start + 1 && Titled(front[start], title) && title != "" && NoneTitled(middle, title) && NoneTitled(back, title)
    requires (back == [] || IsHeading(back[0])) && !HeadingFree(middle)
    ensures title in Sections(front + middle + back)
    ensures Ink(Sections(front + middle + back)[title]) < InkOfLines(middle)
  {
    hide Titled, Sections, Ink, IsHeading, NoneTitled, InkOfLines;
    var all := front + middle + back;
    assert all[start + 1..] == middle + back;
    SectionWithin(all, start, middle, back, title);
    var n := Leading(middle + back);
    var i :| 0 <= i < |middle| && IsHeading(middle[i]);
    LeadingIsFree(middle, back, i);
    HeadingHasInk(middle[i]);
    assert middle[..n] == middle[0..n];
    PartHasLessInk(middle, 0, n, i);
  }

  lemma LeadingIsFree(a: seq<string>, b: seq<string>, i: nat)
    requires i < |a| && IsHeading(a[i])
    ensures Leading(a + b) <= i
  {
    hide IsHeading;
    assert (a + b)[i..][0] == a[i] && a + b == (a + b)[..i] + (a + b)[i..];
    LeadingStops((a + b)[..i], (a + b)[i..]);
  }

  lemma TitledHasInk(line: string, title: string)
    requires Titled(line, title)
    ensures Ink(line) > 0
  {
    hide HeadingTitle, Ink;
    HeadingHasInk(line);
  }

  lemma {:induction false} LeadingStops(a: seq<string>, b: seq<string>)
    requires b == [] || IsHeading(b[0])
    ensures Leading(a + b) <= |a|
    decreases |a|
  {
    hide IsHeading;
    if a == [] {
      assert a + b == b;
    } else {
      assert (a + b)[1..] == a[1..] + b;
      LeadingStops(a[1..], b);
    }
  }

  /** When the edited region ends where the section does, the parser returns the new text
      for the section if and only if no line of that text is a heading. For an append the
      new text holds the old one, trimmed. */
  lemma EditedSectionIff(body: string, op: Operation, title: string, start: nat, content: string)
    requires Whole(SplitLines(body)) && title == Trim(op.heading) && title != ""
    requires start == FindStart(SplitLines(body), title, 0) && start < |SplitLines(body)|
    requires content == Content(op, Region(SplitLines(body), start))
    requires NoneTitled(SplitLines(body)[start + 1..], title) && EndsWithSection(SplitLines(body), start)
    ensures title in Sections(SplitLines(Edited(body, op)))
    ensures Sections(SplitLines(Edited(body, op)))[title] == Trim(content) <==> HeadingFree(SplitLines(content))
  {
    hide Kept, StartsRegion, EndsRegion, Trim, Pieces, SplitLines, Content, Region, Edited, FindStart, FindEnd, Whole, HeadingTitle, HasTerminator, Sections, Titled, HeadingFree, NoneTitled, Ink, IsHeading;
    if HeadingFree(SplitLines(content)) {
      EditedSection(body, op, title, start, content);
    } else {
      var lines := SplitLines(body);
      var end := FindEnd(lines, start + 1);
      var middle := Gap(lines, start) + SplitLines(content) + [""];
      EditedLines(body, op);
      StartIsTitled(lines, start, title);
      NoneTitledBack(lines, start + 1, end, title);
      PartHasHeading(Gap(lines, start), SplitLines(content), [""]);
      assert lines[..start + 1] + middle + lines[end..] == SplitLines(Edited(body, op));
      SectionIsCutShort(lines[..start + 1], middle, lines[end..], start, title);
      InkOfMiddle(lines, start, content);
      InkOfTrim(content);
    }
  }

  lemma PartHasHeading(a: seq<string>, b: seq<string>, c: seq<string>)
    requires !HeadingFree(b)
    ensures !HeadingFree(a + b + c)
  {
    hide IsHeading;
    var i :| 0 <= i < |b| && IsHeading(b[i]);
    assert (a + b + c)[|a| + i] == b[i];
  }

  lemma InkOfMiddle(lines: seq<string>, start: nat, content: string)
    ensures InkOfLines(Gap(lines, start) + SplitLines(content) + [""]) == Ink(content)
  {
    var gap := Gap(lines, start);
    InkOfLinesConcat(gap + SplitLines(content), [""]);
    InkOfLinesConcat(gap, SplitLines(content));
    EmptyHasNoInk();
    JoinSplit(content);
    InkOfRegion(SplitLines(content));
  }

  lemma EmptyHasNoInk()
    ensures InkOfLines([""]) == 0
  {
    assert [""][1..] == [];
  }
}
