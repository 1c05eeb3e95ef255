/** Three inputs for which validated edits keep less than one would expect. */
module PatchLosses {
  import opened Text
  import opened MarkdownLines
  import opened SectionParser
  import opened SectionEdits
  import opened SectionAdds
  import opened SectionSafety
  import opened SectionModes
  import opened PatchSafety
  import opened EvidenceLoss

  /** A title that makes a heading the parser reads back. */
  predicate IsTitle(title: string) {
    Trimmed(title) && title != "" && OneLine(title) && !HasTerminator(title)
  }

  /** A line of text that is not a heading in any way. */
  predicate IsPlain(line: string) {
    Trimmed(line) && line != "" && OneLine(line) && !HasTerminator(line) && !Marked(line)
  }

  lemma EndsOnlyIfMarked(line: string, last: bool)
    requires !HasTerminator(line)
    ensures EndsRegion(Kept(line), last) ==> Marked(line)
  {
    hide EndsRegion, Marked, Kept;
    KeptIsWhole(line);
    if EndsRegion(line, last) {
      EndsIsMarked(line, last);
    }
  }

  lemma PlainFacts(line: string)
    requires IsPlain(line)
    ensures !HasTerminator(line) && OneLine(line) && Trim(line) == line && Kept(line) == line && !IsHeading(line)
    ensures forall last :: !EndsRegion(line, last)
  {
    hide Kept, HasTerminator, Trim, EndsRegion, Marked, OneLine, IsHeading;
    TrimOfTrimmed(line);
    KeptIsWhole(line);
    forall last
      ensures !EndsRegion(line, last)
    {
      EndsOnlyIfMarked(line, last);
    }
    if IsHeading(line) {
      EndsIfHeading(line, false);
    }
  }

  lemma HeadingStarts(title: string)
    requires IsTitle(title)
    ensures !HasTerminator(Heading(title)) && OneLine(Heading(title)) && Titled(Heading(title), title) && Kept(Heading(title)) == Heading(title)
    ensures StartsRegion(Heading(title), title) && Trimmed(Heading(title))
    ensures forall other :: other != title ==> !StartsRegion(Heading(title), other)
  {
    HeadingLine(title);
    HeadingIs(title);
    HeadingIsWhole(title);
    KeptIsWhole(Heading(title));
    SameTitles(Heading(title), title);
    assert StartsRegion(Heading(title), title);
    assert Heading(title)[|Heading(title)| - 1] == title[|title| - 1];
    hide Kept, Trim, HasTerminator, HeadingTitle, Marker;
  }

  lemma HeadingIsWhole(title: string)
    requires OneLine(title) && !HasTerminator(title)
    ensures OneLine(Heading(title)) && !HasTerminator(Heading(title))
  {
    var line := Heading(title);
    forall i | 0 <= i < |line|
      ensures line[i] != '\n' && !Terminator(line[i])
    {
      if i >= 3 {
        assert line[i] == title[i - 3];
      }
    }
  }

  // ---- A line terminator inside a line ----

  lemma {:induction false} KeptAfterTerminator(a: string, t: char, b: string)
    requires Terminator(t)
    ensures Kept(a + [t] + b) == Kept(b)
    decreases |b|
  {
    var line := a + [t] + b;
    if b == [] {
      assert line[|line| - 1] == t;
    } else {
      assert line[..|line| - 1] == a + [t] + b[..|b| - 1];
      KeptAfterTerminator(a, t, b[..|b| - 1]);
    }
  }

  lemma AppendToNothing(heading: string, line: string, body: string, op: Operation)
    requires SplitLines(body) == [heading] + [line] && Kept(heading) == heading && Kept(line) == "" && Kept("") == ""
    requires StartsRegion(heading, Trim(op.heading)) && !EndsRegion("", true) && op.action.Append?
    ensures Edited(body, op) == heading + "\n" + "\n" + Trim(op.content) + "\n"
  {
    EmptyFacts();
    hide Trim, SplitLines, Kept, StartsRegion, EndsRegion;
    var lines := [heading, line];
    assert FindStart(lines, Trim(op.heading), 0) == 0;
    assert FindEnd(lines, 1) == 2;
    TwoPieces(lines);
    hide Pieces, FindStart, FindEnd;
    var content := Trim(op.content);
    assert heading + "\n" + "\n" + content + "\n" + "" + "" == heading + "\n" + "\n" + content + "\n";
  }

  lemma TwoPieces(lines: seq<string>)
    requires |lines| == 2
    ensures Pieces(lines, 2, 2) == "" && Pieces(lines, 1, 2) == Kept(lines[1]) && Pieces(lines, 0, 1) == Kept(lines[0]) + "\n"
  {
    hide Kept;
    NoPieces(lines, 1);
    NoPieces(lines, 2);
    assert Kept(lines[0]) + "\n" + "" == Kept(lines[0]) + "\n";
    assert Kept(lines[1]) + "" == Kept(lines[1]);
  }

  /** The lines of an Evidence section that an append has written. */
  lemma AppendedEvidence(title: string, content: string, after: string)
    requires IsTitle(title) && after == Heading(title) + "\n" + "\n" + content + "\n"
    ensures Evidence("", SplitLines(after)) <= Inked(SplitLines(content))
  {
    hide SplitLines, IsTitle, Evidence, Inked, Heading, HeadingTitle, LastTitle;
    HeadingStarts(title);
    EmptyLines();
    var heading := Heading(title);
    SplitOneLine(heading);
    SplitConcat(heading, "");
    SplitConcat(heading + "\n" + "", content);
    SplitConcat(heading + "\n" + "" + "\n" + content, "");
    assert heading + "\n" + "" + "\n" + content + "\n" + "" == after;
    assert SplitLines(after) == [heading] + ([""] + SplitLines(content) + [""]);
    EvidenceConcat("", [heading], [""] + SplitLines(content) + [""]);
    NoEvidenceInHeading("", heading);
    EvidenceIsInk(LastTitle("", [heading]), [""] + SplitLines(content) + [""]);
    InkedConcat([""] + SplitLines(content), [""]);
    InkedConcat([""], SplitLines(content));
    NoInk();
  }

  /** A line that ends with U+2028 or U+2029 is lost when anything is appended to its
      Evidence section, here the section's only line. */
  lemma TerminatorLosesEvidence(title: string, a: string, t: char, op: Operation, body: string)
    requires IsTitle(title) && IsEvidence(title) && Terminator(t) && OneLine(a) && Trim(a) != ""
    requires op == Operation(title, Append, op.content) && Trim(a) !in Inked(SplitLines(op.content))
    requires body == Heading(title) + "\n" + (a + [t])
    ensures ValidOperation(op) && Evidence("", SplitLines(body)) == multiset{Trim(a)}
    ensures Trim(a) !in Evidence("", SplitLines(Edited(body, op)))
  {
    var heading, line := Heading(title), a + [t];
    assert OneLine(line);
    KeptAfterTerminator(a, t, "");
    assert a + [t] + "" == line && Kept("") == "" && IsSpace(t);
    EmptyFacts();
    TrimLast(a, t);
    NoHeadingBeforeTerminator(a, t);
    hide *;
    HeadingStarts(title);
    EvidenceTitle(heading, title);
    assert op == Operation(title, Append, op.content);
    SplitOneLine(heading);
    SplitOneLine(line);
    SplitConcat(heading, line);
    AppendToNothing(heading, line, body, op);
    AppendedEvidence(title, Trim(op.content), Edited(body, op));
    TrimInk(op.content);
    OneLineEvidence(title, heading, line);
  }

  lemma TrimInk(x: string)
    ensures Inked(SplitLines(Trim(x))) == Inked(SplitLines(x))
  {
    hide Inked, SplitLines, TrimStart, TrimEnd;
    TrimStartInk(x);
    TrimEndInk(TrimStart(x));
  }

  lemma OneLineEvidence(title: string, heading: string, line: string)
    requires Titled(heading, title) && IsEvidence(title) && !IsHeading(line) && Trim(line) != ""
    ensures Evidence("", [heading] + [line]) == multiset{Trim(line)}
  {
    hide IsEvidence, HeadingTitle, Trim;
    var lines := [heading] + [line];
    assert lines[1..] == [line] && [line][1..] == [];
    assert Evidence("", lines) == Evidence(title, [line]) == multiset{Trim(line)} + Evidence(title, []);
  }

  lemma NoHeadingBeforeTerminator(a: string, t: char)
    requires Terminator(t)
    ensures !IsHeading(a + [t])
  {
    var line := a + [t];
    if Marker(line) {
      var rest := AfterHashes(line);
      assert rest[|rest| - 1] == t;
      hide TitleOf;
      NoTitleBeforeTerminator(rest);
    }
  }

  lemma NoTitleBeforeTerminator(rest: string)
    requires rest != [] && Terminator(rest[|rest| - 1])
    ensures TitleOf(rest) == None
  {
    TrimStartIs(rest);
    hide IsSpace, TrimStart, Terminator;
    var u := TrimStart(rest);
    if u != [] {
      assert u[|u| - 1] == rest[|rest| - 1];
    }
  }

  // ---- An indented heading line ----

  function Indented(title: string): string {
    "  " + Heading(title)
  }

  lemma IndentedIsNoHeading(title: string)
    requires IsTitle(title)
    ensures !HasTerminator(Indented(title)) && OneLine(Indented(title)) && Kept(Indented(title)) == Indented(title)
    ensures !EndsRegion(Indented(title), false) && !IsHeading(Indented(title))
    ensures Trim(Indented(title)) == Heading(title)
  {
    HeadingStarts(title);
    var line, h := Indented(title), Heading(title);
    forall i | 0 <= i < |line|
      ensures !Terminator(line[i]) && line[i] != '\n'
    {
      if i >= 2 {
        assert line[i] == h[i - 2];
      }
    }
    KeptIsWhole(line);
    assert Hashes(line) == 0;
    assert line == "  " + h + "";
    TrimFinds("  ", h, "");
    hide Trim, HasTerminator, TitleOf;
  }

  /** Appending to a section whose text starts with an indented heading line moves that
      line to the left, where it starts a section of its own. */
  lemma AppendMakesHeading(evidence: string, title: string, proof: string, note: string, op: Operation)
    requires IsTitle(evidence) && IsTitle(title) && IsPlain(proof) && IsPlain(note)
    requires op.action.Append? && Trim(op.heading) == evidence && op.content == note
    ensures SplitLines(Edited(JoinLines([Heading(evidence), Indented(title), proof]), op))
         == [Heading(evidence), "", Heading(title), proof, "", note, ""]
  {
    hide *;
    HeadingStarts(evidence);
    HeadingStarts(title);
    IndentedIsNoHeading(title);
    PlainFacts(proof);
    PlainFacts(note);
    IndentedText(title, proof);
    ThreeLines(Heading(title), proof, note);
    var text := Heading(title) + "\n" + proof;
    assert text != "";
    AppendToThree(Heading(evidence), Indented(title), proof, note, text, op);
  }

  lemma AppendToThree(first: string, second: string, third: string, note: string, text: string, op: Operation)
    requires !HasTerminator(first) && !HasTerminator(second) && !HasTerminator(third)
    requires OneLine(first) && OneLine(second) && OneLine(third)
    requires StartsRegion(Kept(first), Trim(op.heading)) && !EndsRegion(Kept(second), false) && !EndsRegion(Kept(third), true)
    requires op.action.Append? && Trim(op.content) == note && Trim(RegionText([second, third])) == text && text != ""
    ensures SplitLines(Edited(JoinLines([first, second, third]), op)) == [first, ""] + SplitLines(text + "\n\n" + note) + [""]
  {
    hide Trim, SplitLines, Kept, HasTerminator, StartsRegion, EndsRegion, OneLine, Edited, JoinLines, RegionText;
    var lines := [first, second, third];
    SplitJoin(lines);
    assert FindStart(lines, Trim(op.heading), 0) == 0;
    FindEndAt(lines, 1, 3);
    EditedLines(JoinLines(lines), op);
    assert lines[1..3] == [second, third];
    assert Region(lines, 0) == text;
    assert Content(op, text) == text + "\n\n" + note;
    hide Region, Content, FindStart, FindEnd, Whole;
    assert lines[..1] + Gap(lines, 0) == [first, ""] && lines[3..] == [];
  }

  lemma {:induction false} FindEndAt(lines: seq<string>, i: nat, end: nat)
    requires i <= end <= |lines|
    requires forall k :: i <= k < end ==> !EndsRegion(Kept(lines[k]), k == |lines| - 1)
    requires end < |lines| ==> EndsRegion(Kept(lines[end]), end == |lines| - 1)
    ensures FindEnd(lines, i) == end
    decreases end - i
  {
    hide EndsRegion, Kept;
    if i < end {
      FindEndAt(lines, i + 1, end);
    }
  }

  lemma IndentedText(title: string, proof: string)
    requires IsTitle(title) && IsPlain(proof)
    ensures Trim(RegionText([Indented(title), proof])) == Heading(title) + "\n" + proof
    ensures |Heading(title) + "\n" + proof| > 0
  {
    HeadingStarts(title);
    var h := Heading(title);
    var text := h + "\n" + proof;
    var lines := [Indented(title), proof];
    assert lines[1..] == [proof];
    assert JoinLines(lines) == Indented(title) + "\n" + proof;
    assert JoinLines(lines) == "  " + text + "";
    assert text[0] == h[0] && text[|text| - 1] == proof[|proof| - 1];
    TrimFinds("  ", text, "");
    hide Trim, HasTerminator, Heading;
  }

  lemma ThreeLines(a: string, b: string, c: string)
    requires OneLine(a) && OneLine(b) && OneLine(c)
    ensures SplitLines(a + "\n" + b + "\n\n" + c) == [a, b, "", c]
  {
    SplitOneLine(a);
    SplitOneLine(b);
    SplitOneLine(c);
    EmptyLines();
    hide SplitLines, OneLine;
    SplitConcat(a, b);
    SplitConcat(a + "\n" + b, "");
    SplitConcat(a + "\n" + b + "\n" + "", c);
    assert a + "\n" + b + "\n" + "" + "\n" + c == a + "\n" + b + "\n\n" + c;
  }

  /** A validated patch that loses all the evidence: the section's text starts with an
      indented heading line, the first operation appends to Evidence, and the second
      replaces the section that the first one made. */
  lemma IndentedHeadingLosesEvidence(evidence: string, title: string, proof: string, note: string, gone: string, body: string, a: Operation, b: Operation)
    requires IsTitle(evidence) && IsEvidence(evidence) && IsPlain(proof) && IsPlain(note) && IsPlain(gone) && proof != gone
    requires IsTitle(title) && !IsEvidence(title) && title[0] != '#' && '\r' !in title
    requires a == Operation(evidence, Append, note) && b == Operation(title, Replace, gone)
    requires body == JoinLines([Heading(evidence), Indented(title), proof])
    ensures ValidOperation(a) && ValidOperation(b)
    ensures SplitLines(EditedAll(body, [a, b])) == [Heading(evidence), "", Heading(title), "", gone, ""]
    ensures Evidence("", SplitLines(body)) == multiset{Heading(title), proof} && Evidence("", SplitLines(EditedAll(body, [a, b]))) == multiset{}
  {
    ValidPair(evidence, title, note, gone);
    hide *;
    HeadingStarts(evidence);
    EvidenceTitle(Heading(evidence), evidence);
    PlainFacts(gone);
    EvidenceBefore(evidence, title, proof);
    AppendMakesHeading(evidence, title, proof, note, a);
    var once := Edited(body, a);
    TwoEdits(body, a, b);
    SecondEdit(evidence, title, proof, note, gone, once, b);
    EvidenceAfter(evidence, title, gone);
  }

  lemma ValidPair(evidence: string, title: string, note: string, gone: string)
    requires IsTitle(evidence) && IsEvidence(evidence) && IsTitle(title) && !IsEvidence(title) && title[0] != '#' && '\r' !in title
    ensures ValidOperation(Operation(evidence, Append, note)) && ValidOperation(Operation(title, Replace, gone))
    ensures Trim(evidence) == evidence && Trim(title) == title && evidence != title
  {
    HeadingStarts(evidence);
    EvidenceTitle(Heading(evidence), evidence);
    TrimOfTrimmed(title);
    hide Trim, HasTerminator, OneLine, LowerCase;
  }

  lemma SecondEdit(evidence: string, title: string, proof: string, note: string, gone: string, once: string, b: Operation)
    requires IsTitle(evidence) && IsTitle(title) && evidence != title && IsPlain(proof) && IsPlain(note) && IsPlain(gone)
    requires SplitLines(once) == [Heading(evidence), "", Heading(title), proof, "", note, ""]
    requires b.action.Replace? && Trim(b.heading) == title && Trim(b.content) == gone
    ensures SplitLines(Edited(once, b)) == [Heading(evidence), "", Heading(title), "", gone, ""]
  {
    NoMarker(title);
    hide *;
    HeadingStarts(evidence);
    HeadingStarts(title);
    PlainFacts(proof);
    PlainFacts(note);
    PlainFacts(gone);
    EmptyFacts();
    ReplaceThird([Heading(evidence), "", Heading(title), proof, "", note, ""], title, gone, once, b);
  }

  lemma NoMarker(title: string)
    ensures !StartsRegion("", title)
  {
  }

  lemma ReplaceThird(lines: seq<string>, title: string, gone: string, once: string, b: Operation)
    requires |lines| == 7 && SplitLines(once) == lines && (forall i :: 0 <= i < 7 ==> !HasTerminator(lines[i]))
    requires !StartsRegion(Kept(lines[0]), title) && !StartsRegion(Kept(lines[1]), title) && StartsRegion(Kept(lines[2]), title)
    requires forall i :: 3 <= i < 7 ==> !EndsRegion(Kept(lines[i]), i == 6)
    requires b.action.Replace? && Trim(b.heading) == title && Trim(b.content) == gone && OneLine(gone)
    ensures SplitLines(Edited(once, b)) == lines[..3] + ["", gone, ""]
  {
    hide Trim, SplitLines, Kept, HasTerminator, StartsRegion, EndsRegion, Edited, OneLine;
    StartAtTwo(lines, title);
    FindEndAt(lines, 3, 7);
    EditedLines(once, b);
    SplitOneLine(gone);
    assert Gap(lines, 2) == [""] && lines[7..] == [];
  }

  lemma StartAtTwo(lines: seq<string>, title: string)
    requires |lines| > 2 && !StartsRegion(Kept(lines[0]), title) && !StartsRegion(Kept(lines[1]), title) && StartsRegion(Kept(lines[2]), title)
    ensures FindStart(lines, title, 0) == 2
  {
    hide StartsRegion, Kept;
    assert FindStart(lines, title, 0) == FindStart(lines, title, 1) == FindStart(lines, title, 2);
  }

  lemma EvidenceBefore(evidence: string, title: string, proof: string)
    requires IsTitle(evidence) && IsTitle(title) && IsEvidence(evidence) && IsPlain(proof)
    ensures Evidence("", SplitLines(JoinLines([Heading(evidence), Indented(title), proof]))) == multiset{Heading(title), proof}
  {
    HeadingStarts(evidence);
    HeadingStarts(title);
    IndentedIsNoHeading(title);
    PlainFacts(proof);
    assert Heading(title) != "";
    hide Trim, SplitLines, Kept, HasTerminator, StartsRegion, EndsRegion, OneLine, Trimmed, Heading, Indented, HeadingTitle, Marked, JoinLines, IsEvidence;
    var lines := [Heading(evidence), Indented(title), proof];
    SplitJoin(lines);
    assert lines[1..] == [Indented(title), proof] && lines[1..][1..] == [proof] && lines[1..][1..][1..] == [];
    assert Evidence("", lines) == Evidence(evidence, [Indented(title), proof]);
    assert Evidence(evidence, [proof]) == multiset{proof};
  }

  lemma EvidenceAfter(evidence: string, title: string, gone: string)
    requires IsTitle(evidence) && IsTitle(title) && !IsEvidence(title) && IsPlain(gone)
    ensures Evidence("", [Heading(evidence), "", Heading(title), "", gone, ""]) == multiset{}
  {
    hide *;
    var lines := [Heading(evidence), "", Heading(title), "", gone, ""];
    HeadingStarts(evidence);
    HeadingStarts(title);
    PlainFacts(gone);
    NoEvidenceUnder(evidence, title, Heading(evidence), Heading(title), gone);
  }

  lemma NoEvidenceUnder(evidence: string, title: string, first: string, second: string, gone: string)
    requires Titled(first, evidence) && Titled(second, title) && !IsEvidence(title) && !IsHeading(gone)
    ensures Evidence("", [first, "", second, "", gone, ""]) == multiset{}
  {
    EmptyFacts();
    hide Trim, HeadingTitle, IsEvidence, Evidence, LastTitle;
    NoEvidenceInHeading("", first);
    NoEvidenceInEmpty(evidence);
    NoEvidenceInHeading(evidence, second);
    HeadingFreeLines(title, ["", gone, ""]);
    EvidenceConcat("", [first], [""] + [second] + ["", gone, ""]);
    EvidenceConcat(evidence, [""], [second] + ["", gone, ""]);
    EvidenceConcat(evidence, [second], ["", gone, ""]);
    assert [""] + [second] + ["", gone, ""] == [""] + ([second] + ["", gone, ""]);
    assert [first, "", second, "", gone, ""] == [first] + ([""] + [second] + ["", gone, ""]);
  }

  // ---- A line of bare hashes ----

  /** A line of bare hashes ends the edited region but not the section, so replacing the
      section does not make its text the new content. */
  lemma BareHashesStay(title: string, x: string, bare: string, y: string, body: string, op: Operation)
    requires IsTitle(title) && IsPlain(x) && bare == "##" && IsPlain(y) && body == JoinLines([Heading(title), x, bare, y])
    requires op.action.Replace? && Trim(op.heading) == title && HeadingFree(SplitLines(Trim(op.content)))
    ensures title in Sections(SplitLines(Edited(body, op))) && Sections(SplitLines(Edited(body, op)))[title] != Trim(op.content)
  {
    BareFacts(bare);
    NoMarker(title);
    hide *;
    HeadingStarts(title);
    PlainFacts(x);
    PlainFacts(y);
    SplitsInto(Heading(title), x, bare, y);
    FourLines(Heading(title), x, bare, y, title);
    assert title != "" by { IsTitleFacts(title); }
    ReplacedSection(body, op, title, 0);
  }

  lemma IsTitleFacts(title: string)
    requires IsTitle(title)
    ensures title != ""
  {
  }

  lemma BareFacts(bare: string)
    requires bare == "##"
    ensures EndsRegion(bare, false) && !IsHeading(bare) && !HasTerminator(bare) && OneLine(bare) && Kept(bare) == bare
  {
    assert bare[1..] == "#" && bare[1..][1..] == "";
    KeptIsWhole(bare);
  }

  lemma SplitsInto(a: string, b: string, c: string, d: string)
    requires OneLine(a) && OneLine(b) && OneLine(c) && OneLine(d)
    ensures SplitLines(JoinLines([a, b, c, d])) == [a, b, c, d]
  {
    hide OneLine, SplitLines, JoinLines;
    SplitJoin([a, b, c, d]);
  }

  lemma FourLines(a: string, b: string, c: string, d: string, title: string)
    requires !HasTerminator(a) && !HasTerminator(b) && !HasTerminator(c) && !HasTerminator(d)
    requires StartsRegion(Kept(a), title) && !EndsRegion(Kept(b), false) && EndsRegion(Kept(c), false)
    requires !IsHeading(b) && !IsHeading(c) && !IsHeading(d)
    ensures var lines := [a, b, c, d];
            Whole(lines) && FindStart(lines, title, 0) == 0 && NoneTitled(lines[1..], title) && !EndsWithSection(lines, 0)
  {
    hide StartsRegion, EndsRegion, Kept, HasTerminator, HeadingTitle;
    var lines := [a, b, c, d];
    FindEndAt(lines, 1, 2);
  }
}
