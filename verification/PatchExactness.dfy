/** The pass of SectionModes is exact: validated patches lose nothing of a body if and only
    if the body is safe. */
module PatchExactness {
  import opened Text
  import opened MarkdownLines
  import opened SectionParser
  import opened SectionEdits
  import opened SectionAdds
  import opened SectionSafety
  import opened SectionModes
  import opened PatchSafety
  import opened EvidenceLoss

  // ---- What cutting the lines does to the evidence ----

  /** What the lines with a terminator in them may hide: no untitled heading, and no
      Evidence heading behind the terminator. */
  predicate HidesNothing(line: string) {
    HasTerminator(line) ==> HeadingTitle(line) != Some("") && (IsHeading(Kept(line)) ==> !IsEvidence(HeadingTitle(Kept(line)).value))
  }

  ghost predicate NothingHidden(lines: seq<string>) {
    forall i :: 0 <= i < |lines| ==> HidesNothing(lines[i])
  }

  /** Every heading is one for the edit too, and the cut makes no Evidence heading. */
  predicate CutsWell(line: string) {
    (IsHeading(line) ==> !HasTerminator(line)) && HidesNothing(line)
  }

  ghost predicate AllCutWell(lines: seq<string>) {
    forall i :: 0 <= i < |lines| ==> CutsWell(lines[i])
  }

  /** An inked Evidence line stays one with the same ink. */
  predicate SameLine(title: string, cutTitle: string, line: string) {
    !IsHeading(line) && IsEvidence(title) && Trim(line) != "" ==>
      IsEvidence(cutTitle) && !IsHeading(Kept(line)) && Trim(Kept(line)) == Trim(line)
  }

  function TitleThen(title: string, line: string): string {
    if IsHeading(line) then HeadingTitle(line).value else title
  }

  predicate SameLines(title: string, cutTitle: string, lines: seq<string>)
    decreases |lines|
  {
    lines == [] || (SameLine(title, cutTitle, lines[0]) && SameLines(TitleThen(title, lines[0]), TitleThen(cutTitle, Kept(lines[0])), lines[1..]))
  }

  function LineEvidence(title: string, line: string): multiset<string> {
    if !IsHeading(line) && IsEvidence(title) && Trim(line) != "" then multiset{Trim(line)} else multiset{}
  }

  lemma EvidenceStep(title: string, lines: seq<string>)
    requires lines != []
    ensures Evidence(title, lines) == LineEvidence(title, lines[0]) + Evidence(TitleThen(title, lines[0]), lines[1..])
  {
    hide HeadingTitle, Trim, IsEvidence;
  }

  /** The cut is in Evidence only where the parser is. */
  ghost predicate CutWithin(title: string, cutTitle: string) {
    IsEvidence(cutTitle) ==> IsEvidence(title)
  }

  lemma CutLine(title: string, cutTitle: string, line: string)
    requires CutsWell(line) && CutWithin(title, cutTitle)
    ensures CutWithin(TitleThen(title, line), TitleThen(cutTitle, Kept(line)))
    ensures |LineEvidence(cutTitle, Kept(line))| <= |LineEvidence(title, line)|
    ensures SameLine(title, cutTitle, line) ==> LineEvidence(cutTitle, Kept(line)) == LineEvidence(title, line)
    ensures !SameLine(title, cutTitle, line) ==>
              || |LineEvidence(cutTitle, Kept(line))| < |LineEvidence(title, line)|
              || (Trim(line) in LineEvidence(title, line) && HasTerminator(Trim(line)))
  {
    hide HeadingTitle, Trim, IsEvidence, HasTerminator, Kept;
    if !HasTerminator(line) {
      KeptIsWhole(line);
    }
    CutInk(line);
  }

  /** A cut line has no new ink, and a line that loses some but not all of its ink has a
      terminator inside. */
  lemma CutInk(line: string)
    ensures Trim(line) == "" ==> Trim(Kept(line)) == ""
    ensures Trim(Kept(line)) != "" && Trim(Kept(line)) != Trim(line) ==> HasTerminator(Trim(line))
  {
    var a := KeptIsTail(line);
    var k := Kept(line);
    var p, q := TrimSplits(line);
    hide Kept, IsSpace;
    if Trim(line) == "" {
      BlankConcat(p + Trim(line), q);
      BlankConcat(p, Trim(line));
      BlankConcat(a, k);
      BlankTrims(k);
    } else if Trim(k) != "" && Trim(k) != Trim(line) {
      InkedParts(a, k, p, Trim(line), q);
    }
  }

  lemma BlankTrims(s: string)
    requires Blank(s)
    ensures Trim(s) == ""
  {
    BlankTrimsAway(s);
    EmptyFacts();
  }

  lemma {:induction false} KeptIsTail(line: string) returns (a: string)
    ensures line == a + Kept(line) && (a == [] || Terminator(a[|a| - 1]))
  {
    if line == [] || Terminator(line[|line| - 1]) {
      a := line;
    } else {
      a := KeptIsTail(line[..|line| - 1]);
      assert line == line[..|line| - 1] + [line[|line| - 1]];
    }
  }

  lemma FrontOfBlank(a: string, k: string, p: string, r: string)
    requires a + k == p + r && Blank(p) && |a| <= |p|
    ensures Blank(a)
  {
    hide IsSpace;
    assert forall i :: 0 <= i < |a| ==> a[i] == (a + k)[i] == (p + r)[i] == p[i];
  }

  lemma BackOfBlank(a: string, k: string, r: string, q: string)
    requires a + k == r + q && Blank(q) && |k| <= |q|
    ensures Blank(k)
  {
    hide IsSpace;
    var d := |q| - |k|;
    assert forall i :: 0 <= i < |k| ==> k[i] == (a + k)[|a| + i] == (r + q)[|r| + d + i] == q[d + i];
  }

  lemma InkedParts(a: string, k: string, p: string, s: string, q: string)
    requires a + k == p + s + q && Blank(p) && Blank(q) && Trim(k) != "" && s == Trim(a + k) && s != Trim(k)
    requires a == [] || Terminator(a[|a| - 1])
    ensures HasTerminator(s)
  {
    hide IsSpace, Trim, Terminator;
    var line := a + k;
    NewlineIsBlank();
    assert a + k + "" == a + k;
    if Blank(a) {
      TrimWrap(a, k, "");
      assert false;
    }
    if Blank(k) {
      BlankTrims(k);
      assert false;
    }
    var i := |a| - 1;
    assert line[i] == a[i];
    if |p| > i {
      assert p + (s + q) == p + s + q;
      FrontOfBlank(a, k, p, s + q);
    }
    if |q| >= |k| {
      BackOfBlank(a, k, p + s, q);
    }
    assert |p| <= i < |line| - |q|;
    assert s[i - |p|] == line[i];
  }

  /** Lines with nothing hidden: cutting them leaves no more evidence. */
  lemma {:induction false} CutCount(title: string, cutTitle: string, lines: seq<string>)
    requires AllCutWell(lines) && CutWithin(title, cutTitle)
    ensures |Evidence(cutTitle, Cut(lines))| <= |Evidence(title, lines)|
    ensures SameLines(title, cutTitle, lines) ==> Evidence(cutTitle, Cut(lines)) == Evidence(title, lines)
    ensures !SameLines(title, cutTitle, lines) ==>
              || |Evidence(cutTitle, Cut(lines))| < |Evidence(title, lines)|
              || exists v :: v in Evidence(title, lines) && HasTerminator(v)
    decreases |lines|
  {
    hide SameLine, LineEvidence, TitleThen, Evidence, CutsWell, CutWithin, Trim, HasTerminator, Kept;
    if lines == [] {
      NothingInNoLines(title);
      NothingInNoLines(cutTitle);
      assert Cut(lines) == [];
    } else {
      var line, rest := lines[0], lines[1..];
      assert CutsWell(line) && AllCutWell(rest) by {
        assert forall i :: 0 <= i < |rest| ==> rest[i] == lines[i + 1];
      }
      CutLine(title, cutTitle, line);
      EvidenceStep(title, lines);
      assert Cut(lines)[0] == Kept(line) && Cut(lines)[1..] == Cut(rest);
      EvidenceStep(cutTitle, Cut(lines));
      CutCount(TitleThen(title, line), TitleThen(cutTitle, Kept(line)), rest);
    }
  }

  lemma NothingInNoLines(title: string)
    ensures Evidence(title, []) == multiset{}
  {
  }

  /** When the cut keeps the evidence, a safe cut body comes from a safe body. */
  lemma {:induction false} SafeBeforeCut(st: State, cut: State, lines: seq<string>)
    requires AllCutWell(lines) && st.mode == cut.mode && st.seen == cut.seen
    requires SameLines(st.title, cut.title, lines) && BodySafe(cut, Cut(lines))
    ensures BodySafe(st, lines)
    decreases |lines|
  {
    hide CutsWell, SameLine, LineSafe, After, TitleThen, Kept;
    if lines != [] {
      var line, rest := lines[0], lines[1..];
      assert CutsWell(line) && AllCutWell(rest) by {
        assert forall i :: 0 <= i < |rest| ==> rest[i] == lines[i + 1];
      }
      assert Cut(lines)[0] == Kept(line) && Cut(lines)[1..] == Cut(rest);
      SafeLineBeforeCut(st, cut, line);
      SafeBeforeCut(After(st, line), After(cut, Kept(line)), rest);
    }
  }

  lemma SafeLineBeforeCut(st: State, cut: State, line: string)
    requires CutsWell(line) && st.mode == cut.mode && st.seen == cut.seen
    requires SameLine(st.title, cut.title, line) && LineSafe(cut, Kept(line))
    ensures LineSafe(st, line) && After(st, line).mode == After(cut, Kept(line)).mode && After(st, line).seen == After(cut, Kept(line)).seen
    ensures After(st, line).title == TitleThen(st.title, line) && After(cut, Kept(line)).title == TitleThen(cut.title, Kept(line))
  {
    hide HeadingTitle, Trim, IsEvidence, HasTerminator, Kept, Continued;
    KeptTwice(line);
  }

  // ---- Evidence that the cut loses ----

  lemma {:induction false} EvidenceHasHeading(title: string, lines: seq<string>) returns (i: nat)
    requires !IsEvidence(title) && Evidence(title, lines) != multiset{}
    ensures i < |lines| && IsHeading(lines[i]) && IsEvidence(HeadingTitle(lines[i]).value)
    decreases |lines|
  {
    hide HeadingTitle, Trim, IsEvidence;
    i := 0;
    if !(IsHeading(lines[0]) && IsEvidence(HeadingTitle(lines[0]).value)) {
      var k := EvidenceHasHeading(TitleThen(title, lines[0]), lines[1..]);
      i := k + 1;
    }
  }

  lemma {:induction false} WholeEvidence(title: string, lines: seq<string>)
    requires Whole(lines)
    ensures forall v :: v in Evidence(title, lines) ==> !HasTerminator(v)
    decreases |lines|
  {
    hide LineEvidence, Evidence, TitleThen, Whole, HasTerminator;
    if lines == [] {
      NothingInNoLines(title);
    } else {
      WholeTail(lines);
      EvidenceStep(title, lines);
      WholeEvidence(TitleThen(title, lines[0]), lines[1..]);
      WholeLineEvidence(title, lines[0]);
    }
  }

  lemma WholeLineEvidence(title: string, line: string)
    requires !HasTerminator(line)
    ensures forall v :: v in LineEvidence(title, line) ==> !HasTerminator(v)
  {
    TrimIsPart(line);
    hide HasTerminator, Trim, IsEvidence, HeadingTitle;
  }

  lemma TrimIsPart(line: string)
    ensures HasTerminator(Trim(line)) ==> HasTerminator(line)
  {
    var a, b := TrimSplits(line);
    hide HasTerminator, Trim;
    TerminatorConcat(a + Trim(line), b);
    TerminatorConcat(a, Trim(line));
  }

  lemma CutWellAt(lines: seq<string>, i: nat)
    requires AllCutWell(lines) && i < |lines|
    ensures CutsWell(lines[i])
  {
    hide CutsWell;
  }

  /** An Evidence heading is found by the edit. */
  lemma EvidenceIsFound(lines: seq<string>, i: nat, title: string)
    requires AllCutWell(lines) && i < |lines| && Titled(lines[i], title) && IsEvidence(title)
    ensures FindStart(lines, title, 0) < |lines|
  {
    CutWellAt(lines, i);
    hide StartsRegion, Kept, HasTerminator, IsEvidence, HeadingTitle, CutsWell;
    EvidenceTitle(lines[i], title);
    assert !HasTerminator(lines[i]) by { CutsWellHeading(lines[i]); }
    SameTitles(lines[i], title);
  }

  lemma CutsWellHeading(line: string)
    requires CutsWell(line) && IsHeading(line)
    ensures !HasTerminator(line)
  {
    hide HeadingTitle, HasTerminator, Kept, IsEvidence;
  }

  /** An edit of a section that is there works on the cut text. */
  function CutText(body: string): string {
    JoinLines(Cut(SplitLines(body)))
  }

  lemma {:induction false} PatchesTheCut(body: string, ops: seq<Operation>)
    requires ops != [] && FindStart(SplitLines(body), Trim(ops[0].heading), 0) < |SplitLines(body)|
    ensures EditedAll(CutText(body), ops) == EditedAll(body, ops)
  {
    hide Edited, FindStart, SplitLines, Trim, CutText;
    var n := |ops| - 1;
    if n == 0 {
      assert ops[..0] == [];
      EditsCutText(body, ops[0]);
    } else {
      assert ops[..n][0] == ops[0];
      PatchesTheCut(body, ops[..n]);
    }
  }

  lemma EditsCutText(body: string, op: Operation)
    requires FindStart(SplitLines(body), Trim(op.heading), 0) < |SplitLines(body)|
    ensures Edited(CutText(body), op) == Edited(body, op)
  {
    hide Edited, FindStart, SplitLines, Trim;
    EditsTheCut(body, op);
  }

  lemma CutTextLines(body: string)
    ensures SplitLines(CutText(body)) == Cut(SplitLines(body)) && Whole(SplitLines(CutText(body)))
  {
    hide SplitLines, Whole, Cut;
    CutSplits(body);
  }

  /** The edit of any Evidence section loses evidence that the cut loses. */
  lemma CutLoses(body: string) returns (ops: seq<Operation>)
    requires AllCutWell(SplitLines(body)) && !SameLines("", "", SplitLines(body))
    ensures ValidOperations(ops) && !(Evidence("", SplitLines(body)) <= Evidence("", SplitLines(EditedAll(body, ops))))
  {
    hide SplitLines, Cut, AllCutWell, SameLines, Evidence, Edited, FindStart, Trim, IsEvidence, HeadingTitle, Whole, ValidOperation, CutText, HasTerminator;
    var lines := SplitLines(body);
    StartFacts();
    CutCount("", "", lines);
    SomeEvidence(Evidence("", lines));
    var i := EvidenceHasHeading("", lines);
    var title := HeadingTitle(lines[i]).value;
    EvidenceIsFound(lines, i, title);
    EvidenceTitle(lines[i], title);
    var op := Nothing(title);
    ops := [op];
    OneEdit(body, op);
    EditsCutText(body, op);
    CutTextLines(body);
    CutFound(lines, title);
    NothingAdded(CutText(body), op, title);
    WholeEvidence("", Cut(lines));
    var before, cut, after := Evidence("", lines), Evidence("", Cut(lines)), Evidence("", SplitLines(Edited(body, op)));
    if before <= after {
      SizeOfPart(before, after);
      SizeOfPart(after, cut);
    }
  }

  lemma SomeEvidence(e: multiset<string>)
    ensures (exists v :: v in e) || |e| > 0 ==> e != multiset{}
  {
  }

  lemma CutFound(lines: seq<string>, title: string)
    requires FindStart(lines, title, 0) < |lines|
    ensures FindStart(Cut(lines), title, 0) < |Cut(lines)|
  {
    hide Kept, StartsRegion;
    CutFindStart(lines, title, 0);
  }

  /** Trimming an Evidence section of whole lines adds no evidence. */
  lemma NothingAdded(body: string, op: Operation, title: string)
    requires Whole(SplitLines(body)) && op == Nothing(title) && Trim(title) == title && title != "" && IsEvidence(title)
    requires FindStart(SplitLines(body), title, 0) < |SplitLines(body)|
    ensures Evidence("", SplitLines(Edited(body, op))) <= Evidence("", SplitLines(body))
  {
    hide SplitLines, Trim, Edited, Whole, AreLines, Titled, IsEvidence, NoneTitled, PartsOf, All, ValidOperation, Evidence, StartsRegion, Kept;
    var lines := SplitLines(body);
    var s := FindStart(lines, title, 0);
    StartIsTitled(lines, s, title);
    NoneBefore(lines, s, title);
    NoteAppended(body, op, s, title);
    SplitAreLines(body);
    AppendAddsNothing(lines, s, title, "");
  }

  // ---- Headings that the cut loses ----

  lemma {:induction false} HeadingIsThere(lines: seq<string>, i: nat)
    requires i < |lines| && IsTitled(lines[i])
    ensures Trim(lines[i]) in Headings(lines)
  {
    hide IsTitled, Trim;
    if i > 0 {
      HeadingIsThere(lines[1..], i - 1);
    }
  }

  lemma {:induction false} WholeHeadings(lines: seq<string>)
    requires Whole(lines)
    ensures forall v :: v in Headings(lines) ==> !HasTerminator(v)
  {
    hide IsTitled, Trim, HasTerminator, Whole;
    if lines != [] {
      WholeTail(lines);
      WholeHeadings(lines[1..]);
      TrimIsPart(lines[0]);
    }
  }

  /** A terminator in a titled heading line is before the title. */
  lemma TerminatorInside(line: string)
    requires IsTitled(line) && HasTerminator(line)
    ensures HasTerminator(Trim(line))
  {
    var h, rest := Hashes(line), AfterHashes(line);
    var front := line[..h];
    assert line == front + rest && front[0] == '#' && front[|front| - 1] == '#';
    TrimKeepsFront(front, rest);
    TitleHasNoTerminator(rest);
    hide IsSpace, TrimStart, TrimEnd, Trim, Hashes, HasTerminator, TitleOf;
    HashesHaveNoTerminator(front);
    TerminatorConcat(front, rest);
    TrimEndKeepsTerminator(rest);
    TerminatorConcat(front, TrimEnd(rest));
  }

  lemma TitleHasNoTerminator(rest: string)
    requires rest != [] && TitleOf(rest).Some? && TitleOf(rest) != Some("")
    ensures TrimStart(rest) != [] && !HasTerminator(TrimStart(rest))
  {
    hide HasTerminator, TrimStart, TrimEnd;
  }

  lemma TrimEndKeepsTerminator(rest: string)
    requires TrimStart(rest) != [] && !HasTerminator(TrimStart(rest)) && HasTerminator(rest)
    ensures HasTerminator(TrimEnd(rest))
  {
    TrimStartIs(rest);
    TrimEndIs(rest);
    hide IsSpace, TrimStart, TrimEnd, HasTerminator;
    var t, u := TrimStart(rest), TrimEnd(rest);
    var d := |rest| - |t|;
    assert rest == rest[..d] + t && rest[d] == t[0];
    TerminatorConcat(rest[..d], t);
    forall k | |u| <= k < |rest|
      ensures IsSpace(rest[k])
    {
      assert rest[|u|..][k - |u|] == rest[k];
    }
    assert u == rest[..d] + u[d..];
    TerminatorConcat(rest[..d], u[d..]);
  }

  lemma HashesHaveNoTerminator(front: string)
    requires forall i :: 0 <= i < |front| ==> front[i] == '#'
    ensures !HasTerminator(front)
  {
  }

  /** A plain title. */
  predicate IsPlainTitle(h: string) {
    h == "h"
  }

  lemma PlainTitleFacts(h: string)
    requires IsPlainTitle(h)
    ensures Trim(h) == h && OneLine(h) && StartsRegion(Kept(Heading(h)), h)
    ensures forall action :: ValidOperation(Operation(h, action, ""))
  {
    assert Trimmed(h);
    TrimOfTrimmed(h);
    assert |LowerCase(h)| == 1;
    HeadingLine(h);
    HeadingIs(h);
    var line := Heading(h);
    assert !HasTerminator(line) by { assert line == "## h"; }
    SameTitles(line, h);
  }

  /** An append leaves a section with its title. */
  lemma SectionIsThere(body: string, op: Operation, h: string)
    requires IsPlainTitle(h) && op == Operation(h, Append, "")
    ensures FindStart(SplitLines(Edited(body, op)), h, 0) < |SplitLines(Edited(body, op))|
  {
    hide SplitLines, Edited, FindStart, Whole, Trim, StartsRegion, Kept, IsPlainTitle, FindEnd, Content, Region, Cut;
    PlainTitleFacts(h);
    var lines := SplitLines(body);
    if FindStart(lines, h, 0) < |lines| {
      EditsCutText(body, op);
      CutTextLines(body);
      var cut, s := SplitLines(CutText(body)), FindStart(SplitLines(CutText(body)), h, 0);
      EditsTheCut(body, op);
      EditedLines(CutText(body), op);
      assert SplitLines(Edited(body, op))[s] == cut[s];
      FoundAt(SplitLines(Edited(body, op)), h, s);
    } else {
      NewSectionLines(body, h, "");
      EditedNew(body, op);
      var n := |SplitLines(TrimEnd(body))|;
      assert SplitLines(Edited(body, op))[n + 1] == Heading(h);
      FoundAt(SplitLines(Edited(body, op)), h, n + 1);
    }
  }

  lemma EditedNew(body: string, op: Operation)
    requires FindStart(SplitLines(body), Trim(op.heading), 0) == |SplitLines(body)|
    ensures Edited(body, op) == NewSection(body, Trim(op.heading), op.content)
  {
    hide SplitLines, FindStart, Trim, NewSection;
  }

  lemma FoundAt(lines: seq<string>, heading: string, i: nat)
    requires i < |lines| && StartsRegion(Kept(lines[i]), heading)
    ensures FindStart(lines, heading, 0) < |lines|
  {
    hide StartsRegion, Kept;
  }

  /** Replacing a section by nothing leaves whole lines. */
  lemma ReplaceIsWhole(body: string, op: Operation, h: string)
    requires op == Operation(h, Replace, "") && Trim(h) == h && FindStart(SplitLines(body), h, 0) < |SplitLines(body)|
    ensures Whole(SplitLines(Edited(body, op)))
  {
    hide SplitLines, Edited, FindStart, Whole, Trim, Kept, FindEnd, Cut, HasTerminator, Content, Region, Gap, CutText, StartsRegion, EndsRegion;
    EditsCutText(body, op);
    CutFoundText(body, h);
    CutTextLines(body);
    var cut := SplitLines(CutText(body));
    var s := FindStart(cut, h, 0);
    EditedLines(CutText(body), op);
    EmptyFacts();
    EmptyLines();
    ReplacedByNothing(op, Region(cut, s));
    WholeOne("");
    WholeNone();
    var end := FindEnd(cut, s + 1);
    WholeParts(cut[..s + 1], cut[s + 1..end], cut[end..], cut);
    GapIs(cut, s);
    WholeConcat(cut[..s + 1] + Gap(cut, s) + [""] + [""], cut[end..]);
    WholeConcat(cut[..s + 1] + Gap(cut, s) + [""], [""]);
    WholeConcat(cut[..s + 1] + Gap(cut, s), [""]);
    WholeConcat(cut[..s + 1], Gap(cut, s));
  }

  lemma ReplacedByNothing(op: Operation, existing: string)
    requires op.action.Replace? && op.content == ""
    ensures Content(op, existing) == ""
  {
    EmptyFacts();
    hide Trim;
  }

  lemma HeadingLost(body: string, i: nat, h: string) returns (ops: seq<Operation>)
    requires i < |SplitLines(body)| && IsTitled(SplitLines(body)[i]) && HasTerminator(SplitLines(body)[i]) && IsPlainTitle(h)
    ensures ValidOperations(ops) && !(Headings(SplitLines(body)) <= Headings(SplitLines(EditedAll(body, ops))))
  {
    hide SplitLines, Edited, FindStart, Whole, Trim, IsPlainTitle, HasTerminator, IsTitled, Headings, ValidOperation;
    var a, b := Operation(h, Append, ""), Operation(h, Replace, "");
    PlainTitleFacts(h);
    ops := [a, b];
    TwoEdits(body, a, b);
    SectionIsThere(body, a, h);
    ReplaceIsWhole(Edited(body, a), b, h);
    WholeHeadings(SplitLines(EditedAll(body, ops)));
    HeadingIsThere(SplitLines(body), i);
    TerminatorInside(SplitLines(body)[i]);
  }

  // ---- The exact condition ----

  /** No sequence of validated operations loses anything. */
  ghost predicate NeverLoses(body: string) {
    forall ops :: ValidOperations(ops) ==> NothingLost(body, EditedAll(body, ops))
  }

  lemma UnsafeLoses(body: string) returns (ops: seq<Operation>)
    requires NothingHidden(SplitLines(body)) && !BodySafe(Start(), SplitLines(body))
    ensures ValidOperations(ops) && !NothingLost(body, EditedAll(body, ops))
  {
    hide SplitLines, HidesNothing, IsTitled, HasTerminator, CutsWell, SameLines, BodySafe, ValidOperations, Headings, Evidence, EditedAll, Start, FindStart, Trim, CutText, Cut;
    var lines := SplitLines(body);
    if i :| 0 <= i < |lines| && IsTitled(lines[i]) && HasTerminator(lines[i]) {
      ops := HeadingLost(body, i, "h");
    } else {
      forall i | 0 <= i < |lines|
        ensures CutsWell(lines[i])
      {
        HiddenOrCutWell(lines[i]);
      }
      if SameLines("", "", lines) {
        CutCount("", "", lines);
        CutTextLines(body);
        if BodySafe(Start(), Cut(lines)) {
          StartTitle();
          SafeBeforeCut(Start(), Start(), lines);
        }
        ops := WholeLoses(CutText(body));
        CutFoundText(body, Trim(ops[0].heading));
        PatchesTheCut(body, ops);
        FewerIsNotAll(Evidence("", SplitLines(EditedAll(body, ops))), Evidence("", lines));
      } else {
        ops := CutLoses(body);
      }
    }
  }

  lemma StartTitle()
    ensures Start().title == ""
  {
  }

  lemma CutFoundText(body: string, heading: string)
    ensures FindStart(SplitLines(CutText(body)), heading, 0) == FindStart(SplitLines(body), heading, 0) && |SplitLines(CutText(body))| == |SplitLines(body)|
  {
    hide SplitLines, FindStart, CutText, Cut;
    CutTextLines(body);
    CutFindStart(SplitLines(body), heading, 0);
  }

  lemma HiddenOrCutWell(line: string)
    requires HidesNothing(line) && !(IsTitled(line) && HasTerminator(line))
    ensures CutsWell(line)
  {
    hide HeadingTitle, HasTerminator, Kept, IsEvidence;
  }

  /** Validated patches lose nothing of a body if and only if the body is safe. */
  lemma NeverLosesIffSafe(body: string)
    requires NothingHidden(SplitLines(body))
    ensures NeverLoses(body) <==> BodySafe(Start(), SplitLines(body))
  {
    hide SplitLines, BodySafe, NothingLost, ValidOperations, EditedAll, Start, HidesNothing;
    if BodySafe(Start(), SplitLines(body)) {
      forall ops | ValidOperations(ops)
        ensures NothingLost(body, EditedAll(body, ops))
      {
        PatchKeepsEvidence(body, ops);
      }
    } else {
      var ops := UnsafeLoses(body);
    }
  }

  /** Line j breaks the Evidence section under line s, the first with its title. */
  ghost predicate Broken(lines: seq<string>, s: nat, j: nat) {
    s < |lines| && IsHeading(lines[s]) && InSection(lines, s, j + 1, HeadingTitle(lines[s]).value) && Breaks(lines, s, j)
  }

  /** With no other line terminators in the body, it is safe exactly when no line breaks a
      first Evidence section. */
  lemma SafeIffUnbroken(body: string)
    requires Whole(SplitLines(body))
    ensures BodySafe(Start(), SplitLines(body)) <==> forall s: nat, j: nat :: !Broken(SplitLines(body), s, j)
  {
    hide SplitLines, BodySafe, Whole, Breaks, IsEvidence, Evidence, EditedAll, NothingLost, ValidOperations, HeadingFree, NoneTitled, FindStart, Trim, Headings;
    var lines := SplitLines(body);
    if !BodySafe(Start(), lines) {
      var s, j, title := BrokenSection(lines);
      assert Broken(lines, s, j);
    } else if s: nat, j: nat :| Broken(lines, s, j) {
      var ops := BrokenLoses(body, s, j, HeadingTitle(lines[s]).value);
      PatchKeepsEvidence(body, ops);
      LostIsLost(body, EditedAll(body, ops));
    }
  }

  lemma LostIsLost(body: string, next: string)
    requires Fewer(Evidence("", SplitLines(next)), Evidence("", SplitLines(body)))
    ensures !NothingLost(body, next)
  {
    hide SplitLines, Evidence, Headings;
    FewerIsNotAll(Evidence("", SplitLines(next)), Evidence("", SplitLines(body)));
  }
}
