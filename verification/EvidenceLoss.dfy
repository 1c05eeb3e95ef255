/** Bodies without line terminators other than the line feed: one that is not safe loses
    evidence by two validated appends to an Evidence section. */
module EvidenceLoss {
  import opened Text
  import opened MarkdownLines
  import opened SectionParser
  import opened SectionEdits
  import opened SectionAdds
  import opened SectionSafety
  import opened SectionModes
  import opened PatchSafety

  // ---- Fewer lines ----

  ghost predicate Fewer(a: multiset<string>, b: multiset<string>) {
    a <= b && |a| < |b|
  }

  lemma SizeOfPart(a: multiset<string>, b: multiset<string>)
    requires a <= b
    ensures |a| <= |b|
  {
    assert b == a + (b - a);
  }

  lemma FewerSum(a: multiset<string>, b: multiset<string>, c: multiset<string>, d: multiset<string>)
    requires Fewer(a, b) && c <= d
    ensures Fewer(a + c, b + d) && Fewer(c + a, d + b)
  {
    SizeOfPart(c, d);
    assert c + a == a + c && d + b == b + d;
  }

  lemma FewerIsNotAll(a: multiset<string>, b: multiset<string>)
    requires Fewer(a, b)
    ensures !(b <= a)
  {
    if b <= a {
      SizeOfPart(b, a);
    }
  }

  // ---- How much evidence there can be ----

  function TitleAfter(line: string): string
    requires IsHeading(line)
  {
    HeadingTitle(line).value
  }

  lemma {:induction false} EvidenceIsInk(title: string, lines: seq<string>)
    ensures Evidence(title, lines) <= Inked(lines)
    decreases |lines|
  {
    hide HeadingTitle, Trim, IsEvidence, IsHeading;
    if lines != [] {
      var next := if IsHeading(lines[0]) then TitleAfter(lines[0]) else title;
      EvidenceIsInk(next, lines[1..]);
    }
  }

  /** A heading among the lines is ink that is not evidence. */
  lemma HeadingIsNoEvidence(title: string, lines: seq<string>)
    requires !HeadingFree(lines)
    ensures Fewer(Evidence(title, lines), Inked(lines))
  {
    hide HeadingTitle, Trim, IsEvidence, IsHeading, Evidence, Inked, LastTitle;
    var i :| 0 <= i < |lines| && IsHeading(lines[i]);
    var a, b := lines[..i], lines[i + 1..];
    assert lines == a + [lines[i]] + b;
    EvidenceConcat(title, a + [lines[i]], b);
    EvidenceConcat(title, a, [lines[i]]);
    InkedConcat(a + [lines[i]], b);
    InkedConcat(a, [lines[i]]);
    EvidenceIsInk(title, a);
    EvidenceIsInk(LastTitle(title, a + [lines[i]]), b);
    InkOfLine(lines[i]);
    EndsIfHeading(lines[i], false);
    NoEvidenceInHeading(LastTitle(title, a), lines[i]);
    var none: multiset<string> := multiset{};
    assert Fewer(none, multiset{Trim(lines[i])});
    FewerSum(none, multiset{Trim(lines[i])}, Evidence(title, a), Inked(a));
    FewerSum(Evidence(title, a) + none, Inked(a) + multiset{Trim(lines[i])}, Evidence(LastTitle(title, a + [lines[i]]), b), Inked(b));
  }

  lemma NoEvidenceInHeading(title: string, line: string)
    requires IsHeading(line)
    ensures Evidence(title, [line]) == multiset{} && LastTitle(title, [line]) == HeadingTitle(line).value
  {
    hide HeadingTitle, Trim, IsEvidence;
    assert [line][1..] == [];
  }

  lemma NoEvidenceInEmpty(title: string)
    ensures Evidence(title, [""]) == multiset{} && LastTitle(title, [""]) == title && Evidence(title, []) == multiset{} && LastTitle(title, []) == title
  {
    EmptyFacts();
    assert [""][1..] == [];
    hide HeadingTitle, Trim, IsEvidence;
  }

  lemma {:induction false} MostInEvidence(a: string, b: string, lines: seq<string>)
    requires IsEvidence(b)
    ensures Evidence(a, lines) <= Evidence(b, lines)
    decreases |lines|
  {
    hide HeadingTitle, Trim, IsEvidence, IsHeading;
    if lines != [] && !IsHeading(lines[0]) {
      MostInEvidence(a, b, lines[1..]);
    }
  }

  lemma OutOfEvidence(a: string, b: string, lines: seq<string>)
    requires !IsEvidence(a) && IsEvidence(b) && lines != [] && !IsHeading(lines[0]) && Trim(lines[0]) != ""
    ensures Fewer(Evidence(a, lines), Evidence(b, lines))
  {
    hide HeadingTitle, Trim, IsEvidence, IsHeading;
    MostInEvidence(a, b, lines[1..]);
    SizeOfPart(Evidence(a, lines[1..]), Evidence(b, lines[1..]));
  }

  // ---- Appending one line to an Evidence section ----

  /** A level-two heading of its own, or nothing. */
  predicate IsNote(c: string) {
    c == "" || c == "## Z"
  }

  lemma NoteFacts(c: string)
    requires IsNote(c)
    ensures Trim(c) == c && OneLine(c) && SplitLines(c) == [c] && !HasTerminator(c)
    ensures c != "" ==> Titled(c, "Z") && !IsEvidence("Z")
    ensures forall title :: Evidence(title, [c]) == multiset{}
  {
    assert Trimmed(c);
    TrimOfTrimmed(c);
    SplitOneLine(c);
    if c == "" {
      forall title ensures Evidence(title, [c]) == multiset{} { NoEvidenceInEmpty(title); }
    } else {
      HeadingLine("Z");
      assert "## " + "Z" == c;
      assert Trim("Z") == "Z" && LowerCase("Z") != "evidence" by { TrimOfTrimmed("Z"); }
      forall title ensures Evidence(title, [c]) == multiset{} { NoEvidenceInHeading(title, c); }
    }
  }

  /** The lines of the new text before the appended one. */
  function Before(existing: string): seq<string> {
    if existing == "" then [] else SplitLines(existing) + [""]
  }

  lemma AppendedLines(op: Operation, existing: string)
    requires op.action.Append? && IsNote(op.content)
    ensures SplitLines(Content(op, existing)) == Before(existing) + [op.content]
  {
    hide SplitLines, Trim;
    var c := op.content;
    NoteFacts(c);
    if existing == "" {
      assert Before(existing) + [c] == [c];
    } else {
      SplitConcat(existing, "");
      SplitConcat(existing + "\n" + "", c);
      EmptyLines();
      assert existing + "\n" + "" + "\n" + c == existing + "\n\n" + c;
    }
  }

  /** Where an append puts things, by the lines it works on. */
  datatype Parts = Parts(front: seq<string>, was: seq<string>, now: seq<string>, back: seq<string>)

  function PartsOf(lines: seq<string>, start: nat, c: string): Parts
    requires start < |lines|
  {
    var end := FindEnd(lines, start + 1);
    Parts(lines[..start + 1], lines[start + 1..end], Gap(lines, start) + Before(Region(lines, start)) + [c] + [""], lines[end..])
  }

  function All(p: Parts): seq<string> {
    p.front + p.now + p.back
  }

  lemma AppendIs(body: string, op: Operation, start: nat)
    requires Whole(SplitLines(body)) && op.action.Append? && IsNote(op.content)
    requires start == FindStart(SplitLines(body), Trim(op.heading), 0) && start < |SplitLines(body)|
    ensures SplitLines(Edited(body, op)) == All(PartsOf(SplitLines(body), start, op.content))
  {
    hide SplitLines, Trim, FindStart, FindEnd, Edited, Content, Region, Whole, IsNote, Gap, Before;
    var lines := SplitLines(body);
    EditedLines(body, op);
    AppendedLines(op, Region(lines, start));
    var gap, before, back := Gap(lines, start), Before(Region(lines, start)), lines[FindEnd(lines, start + 1)..];
    assert lines[..start + 1] + gap + (before + [op.content]) + [""] + back == lines[..start + 1] + (gap + before + [op.content] + [""]) + back;
  }

  lemma BeforeInk(lines: seq<string>, start: nat)
    requires AreLines(lines) && start < |lines|
    ensures Inked(Before(Region(lines, start))) == Inked(PartsOf(lines, start, "").was)
  {
    hide SplitLines, Trim, FindEnd, Inked, RegionText, AreLines;
    var was := lines[start + 1..FindEnd(lines, start + 1)];
    LinesOfPart(lines, start + 1, FindEnd(lines, start + 1));
    RegionInk(was);
    NoInk();
    EmptyLines();
    if Region(lines, start) != "" {
      InkedConcat(SplitLines(Region(lines, start)), [""]);
    }
  }

  lemma GapIs(lines: seq<string>, start: nat)
    ensures Gap(lines, start) == [] || Gap(lines, start) == [""]
  {
  }

  /** Evidence before and after, and how the new lines compare with the old. */
  lemma AppendEvidence(lines: seq<string>, start: nat, title: string, c: string)
    requires Whole(lines) && AreLines(lines) && start < |lines| && Titled(lines[start], title) && IsEvidence(title) && IsNote(c)
    ensures var p := PartsOf(lines, start, c);
            && lines == p.front + p.was + p.back && HeadingFree(p.was)
            && Evidence("", lines) == Evidence("", p.front) + Inked(p.was) + Evidence(title, p.back)
            && Evidence("", All(p)) == Evidence("", p.front) + Evidence(title, p.now) + Evidence(LastTitle(title, p.now), p.back)
            && Evidence(title, p.now) <= Inked(p.was)
            && (!HeadingFree(Before(Region(lines, start))) ==> Fewer(Evidence(title, p.now), Inked(p.was)))
  {
    hide Titled, IsEvidence, FindEnd, Evidence, Inked, LastTitle, Region, IsNote, Whole, AreLines, HeadingFree, Gap, Before;
    var p := PartsOf(lines, start, c);
    RegionIsHeadingFree(lines, start);
    assert lines == p.front + p.was + p.back;
    assert p.front[|p.front| - 1] == lines[start];
    StartsInSection("", p.front, title);
    HeadingFreeLines(title, p.was);
    EvidenceConcat("", p.front + p.was, p.back);
    EvidenceConcat("", p.front, p.was);
    LastTitleConcat("", p.front, p.was);
    EvidenceConcat("", p.front + p.now, p.back);
    EvidenceConcat("", p.front, p.now);
    LastTitleConcat("", p.front, p.now);
    GapIs(lines, start);
    BeforeInk(lines, start);
    NowEvidence(title, Gap(lines, start), Before(Region(lines, start)), c);
  }

  lemma NowEvidence(title: string, gap: seq<string>, before: seq<string>, c: string)
    requires (gap == [] || gap == [""]) && IsNote(c)
    ensures Evidence(title, gap + before + [c] + [""]) <= Inked(before)
    ensures !HeadingFree(before) ==> Fewer(Evidence(title, gap + before + [c] + [""]), Inked(before))
  {
    hide IsEvidence, Evidence, Inked, LastTitle, IsNote, HeadingFree;
    NoteFacts(c);
    NoEvidenceInEmpty(title);
    EvidenceConcat(title, gap + before + [c], [""]);
    EvidenceConcat(title, gap + before, [c]);
    EvidenceConcat(title, gap, before);
    NoEvidenceInEmpty(LastTitle(title, gap + before + [c]));
    EvidenceIsInk(title, before);
    if !HeadingFree(before) {
      HeadingIsNoEvidence(title, before);
    }
  }

  /** Appending a note to an Evidence section never adds to the evidence. */
  lemma AppendAddsNothing(lines: seq<string>, start: nat, title: string, c: string)
    requires Whole(lines) && AreLines(lines) && start < |lines| && Titled(lines[start], title) && IsEvidence(title) && IsNote(c)
    ensures Evidence("", All(PartsOf(lines, start, c))) <= Evidence("", lines)
    ensures !HeadingFree(Before(Region(lines, start))) ==> Fewer(Evidence("", All(PartsOf(lines, start, c))), Evidence("", lines))
  {
    hide Titled, IsEvidence, Evidence, Inked, LastTitle, Region, IsNote, Whole, AreLines, HeadingFree, Before, PartsOf, All;
    AppendEvidence(lines, start, title, c);
    var p := PartsOf(lines, start, c);
    var e, now, back := Evidence("", p.front), Evidence(title, p.now), Evidence(LastTitle(title, p.now), p.back);
    MostInEvidence(LastTitle(title, p.now), title, p.back);
    if !HeadingFree(Before(Region(lines, start))) {
      FewerSum(now, Inked(p.was), e, e);
      FewerSum(e + now, e + Inked(p.was), back, Evidence(title, p.back));
    }
  }

  /** Appending a heading takes away the lines behind a region that ends before the
      section does. */
  lemma HeadingTakesRest(lines: seq<string>, start: nat, title: string, c: string)
    requires Whole(lines) && AreLines(lines) && start < |lines| && Titled(lines[start], title) && IsEvidence(title) && c == "## Z"
    requires !EndsWithSection(lines, start)
    ensures Fewer(Evidence("", All(PartsOf(lines, start, c))), Evidence("", lines))
  {
    hide Titled, IsEvidence, Evidence, Inked, LastTitle, Region, Whole, AreLines, HeadingFree, Gap, Before, FindEnd, IsHeading, Trim, EndsRegion;
    NoteFacts(c);
    AppendEvidence(lines, start, title, c);
    var p := PartsOf(lines, start, c);
    var front := p.now[..|p.now| - 1];
    assert p.now == front + [""] && front[|front| - 1] == c;
    StartsInSection(title, front, "Z");
    LastTitleConcat(title, front, [""]);
    NoEvidenceInEmpty("Z");
    RestIsInked(lines, FindEnd(lines, start + 1));
    OutOfEvidence("Z", title, p.back);
    FewerSum(Evidence("Z", p.back), Evidence(title, p.back), Evidence("", p.front) + Evidence(title, p.now), Evidence("", p.front) + Inked(p.was));
  }

  lemma RestIsInked(lines: seq<string>, end: nat)
    requires Whole(lines) && end < |lines| && EndsRegion(Kept(lines[end]), end == |lines| - 1)
    ensures Trim(lines[end..][0]) != ""
  {
    hide EndsRegion, Kept, HasTerminator, Trim, Marked;
    KeptIsWhole(lines[end]);
    EndsIsMarked(lines[end], end == |lines| - 1);
    EmptyFacts();
    MarkedByInk(lines[end], "");
  }

  // ---- The section of an unsafe line ----

  /** Line s is the first heading with an Evidence title, and none comes behind it before i. */
  ghost predicate InSection(lines: seq<string>, s: nat, i: nat, title: string) {
    && s < i <= |lines| && Titled(lines[s], title) && IsEvidence(title)
    && HeadingFree(lines[s + 1..i]) && NoneTitled(lines[..s], title)
  }

  /** Line j ends the region under s, or is the first inked line and looks like a heading. */
  ghost predicate Breaks(lines: seq<string>, s: nat, j: nat) {
    && s < j < |lines|
    && (EndsRegion(lines[j], false) || (Marked(lines[j]) && forall k :: s < k < j ==> Trim(lines[k]) == ""))
  }

  /** The state before line i. */
  function StateAt(lines: seq<string>, i: nat): State
    requires i <= |lines|
  {
    AfterAll(Start(), lines[..i])
  }

  lemma StateSnoc(lines: seq<string>, i: nat)
    requires i < |lines|
    ensures StateAt(lines, i + 1) == After(StateAt(lines, i), lines[i])
  {
    hide After;
    assert lines[..i + 1] == lines[..i] + [lines[i]];
    LastingConcat(Start(), lines[..i], [lines[i]]);
    LastingOne(StateAt(lines, i), lines[i]);
  }

  lemma {:induction false} SeenIfTitled(st: State, lines: seq<string>, k: nat, title: string)
    requires Whole(lines) && k < |lines| && Titled(lines[k], title)
    ensures title in AfterAll(st, lines).seen
    decreases |lines|
  {
    hide IsEvidence, HeadingTitle, Kept, Continued, Whole, HasTerminator;
    WholeTail(lines);
    if k == 0 {
      SeenGrows(After(st, lines[0]), lines[1..]);
    } else {
      SeenIfTitled(After(st, lines[0]), lines[1..], k - 1, title);
    }
  }

  lemma StartFacts()
    ensures !IsEvidence("") && StateAt([], 0) == Start()
  {
    EmptyFacts();
  }

  /** Where the modes come from. */
  lemma {:induction false} Locate(lines: seq<string>, i: nat) returns (s: nat, j: nat)
    requires Whole(lines) && i <= |lines| && IsEvidence(StateAt(lines, i).title) && !StateAt(lines, i).mode.Always?
    ensures InSection(lines, s, i, StateAt(lines, i).title)
    ensures StateAt(lines, i).mode.Fresh? ==> forall k :: s < k < i ==> Trim(lines[k]) == ""
    ensures StateAt(lines, i).mode.Never? ==> j < i && Breaks(lines, s, j)
    decreases i
  {
    hide IsEvidence, HeadingTitle, Kept, EndsRegion, Trim, Marked, Whole, HasTerminator, AfterAll, StateAt;
    s, j := 0, 0;
    if i == 0 {
      StateAtZero(lines);
    } else {
      var line := lines[i - 1];
      StateSnoc(lines, i - 1);
      LineIsKept(lines, i - 1);
      if IsHeading(line) {
        s := i - 1;
        NotSeenBefore(lines, i - 1, HeadingTitle(line).value);
      } else {
        s, j := Locate(lines, i - 1);
        assert lines[s + 1..i] == lines[s + 1..i - 1] + [line];
        if StateAt(lines, i).mode.Never? && !StateAt(lines, i - 1).mode.Never? {
          j := i - 1;
        }
      }
    }
  }

  lemma StateAtZero(lines: seq<string>)
    ensures StateAt(lines, 0) == Start() && !IsEvidence(Start().title)
  {
    StartFacts();
    assert lines[..0] == [];
  }

  lemma LineIsKept(lines: seq<string>, i: nat)
    requires Whole(lines) && i < |lines|
    ensures Kept(lines[i]) == lines[i]
  {
    hide HasTerminator, Kept;
    assert !HasTerminator(lines[i]);
    KeptIsWhole(lines[i]);
  }

  lemma SeenBefore(lines: seq<string>, i: nat, k: nat, title: string)
    requires Whole(lines) && k < i <= |lines| && Titled(lines[k], title)
    ensures title in StateAt(lines, i).seen
  {
    hide Titled, HasTerminator, Start;
    assert lines == lines[..i] + lines[i..];
    WholeConcat(lines[..i], lines[i..]);
    SeenIfTitled(Start(), lines[..i], k, title);
  }

  lemma NotSeenBefore(lines: seq<string>, i: nat, title: string)
    requires Whole(lines) && i <= |lines|
    ensures title !in StateAt(lines, i).seen ==> NoneTitled(lines[..i], title)
  {
    hide Titled, HasTerminator, StateAt;
    var front := lines[..i];
    forall k | 0 <= k < |front|
      ensures Titled(front[k], title) ==> title in StateAt(lines, i).seen
    {
      if Titled(front[k], title) {
        SeenBefore(lines, i, k, title);
      }
    }
  }

  lemma {:induction false} FirstUnsafe(st: State, lines: seq<string>) returns (i: nat)
    requires !BodySafe(st, lines)
    ensures i < |lines| && !LineSafe(AfterAll(st, lines[..i]), lines[i])
    decreases |lines|
  {
    hide LineSafe, After;
    i := 0;
    if LineSafe(st, lines[0]) {
      var k := FirstUnsafe(After(st, lines[0]), lines[1..]);
      i := k + 1;
      assert lines[..i][0] == lines[0] && lines[..i][1..] == lines[1..][..k];
    } else {
      assert lines[..0] == [];
    }
  }

  /** In an unsafe body of whole lines, some first Evidence section has a line that breaks it. */
  lemma BrokenSection(lines: seq<string>) returns (s: nat, j: nat, title: string)
    requires Whole(lines) && !BodySafe(Start(), lines)
    ensures Breaks(lines, s, j) && InSection(lines, s, j + 1, title)
  {
    hide IsEvidence, HeadingTitle, Kept, EndsRegion, Trim, Marked, Whole, HasTerminator, AfterAll, BodySafe, Start, IsTitled;
    var i := FirstUnsafe(Start(), lines);
    LineIsKept(lines, i);
    LineIsWhole(lines, i);
    StateSnoc(lines, i);
    title := StateAt(lines, i).title;
    assert !IsHeading(lines[i]) && IsEvidence(title) && Trim(lines[i]) != "" && !Lasts(StateAt(lines, i), lines[i]);
    s, j := Locate(lines, i + 1);
    SectionUpTo(lines, s, i + 1, j + 1, title);
  }

  lemma LineIsWhole(lines: seq<string>, i: nat)
    requires Whole(lines) && i < |lines|
    ensures !HasTerminator(lines[i])
  {
    hide HasTerminator;
  }

  lemma SectionUpTo(lines: seq<string>, s: nat, i: nat, j: nat, title: string)
    requires InSection(lines, s, i, title) && s < j <= i
    ensures InSection(lines, s, j, title)
  {
    hide Titled, IsEvidence, IsHeading, NoneTitled;
    var a, b := lines[s + 1..j], lines[s + 1..i];
    assert a == b[..|a|];
  }

  // ---- What trimming a text leaves of its lines ----

  /** A line that starts and ends with ink stays a line. */
  lemma StepStartLine(c: char, lines: seq<string>, h: string)
    requires lines != [] && IsSpace(c) && h != "" && !IsSpace(h[0]) && h in Prepended(c, lines)
    ensures h in lines
  {
    hide IsSpace;
    assert ([c] + lines[0])[0] == c;
  }

  lemma StepEndLine(lines: seq<string>, c: char, h: string)
    requires lines != [] && IsSpace(c) && h != "" && !IsSpace(h[|h| - 1]) && h in Appended(lines, c)
    ensures h in lines
  {
    hide IsSpace;
    var last := lines[|lines| - 1] + [c];
    assert last[|last| - 1] == c;
  }

  lemma {:induction false} TrimStartLine(x: string, h: string)
    requires h != "" && !IsSpace(h[0]) && h in SplitLines(x)
    ensures h in SplitLines(TrimStart(x))
  {
    hide IsSpace;
    if x != [] && IsSpace(x[0]) {
      StepStartLine(x[0], SplitLines(x[1..]), h);
      TrimStartLine(x[1..], h);
    }
  }

  lemma {:induction false} TrimEndLine(x: string, h: string)
    requires h != "" && !IsSpace(h[|h| - 1]) && h in SplitLines(x)
    ensures h in SplitLines(TrimEnd(x))
    decreases |x|
  {
    hide IsSpace, SplitLines;
    if x != [] && IsSpace(x[|x| - 1]) {
      var y := x[..|x| - 1];
      assert x == y + [x[|x| - 1]];
      SplitSnoc(y, x[|x| - 1]);
      StepEndLine(SplitLines(y), x[|x| - 1], h);
      TrimEndLine(y, h);
    }
  }

  /** The first inked line, trimmed. */
  function FirstInk(lines: seq<string>): string {
    if lines == [] then "" else if Trim(lines[0]) != "" then Trim(lines[0]) else FirstInk(lines[1..])
  }

  lemma {:induction false} FirstInkConcat(a: seq<string>, b: seq<string>)
    ensures FirstInk(a + b) == if FirstInk(a) != "" then FirstInk(a) else FirstInk(b)
  {
    hide Trim;
    if a == [] {
      assert a + b == b;
    } else {
      assert (a + b)[1..] == a[1..] + b;
      FirstInkConcat(a[1..], b);
    }
  }

  lemma {:induction false} FirstInkIs(lines: seq<string>, k: nat)
    requires k < |lines| && Trim(lines[k]) != "" && forall i :: 0 <= i < k ==> Trim(lines[i]) == ""
    ensures FirstInk(lines) == Trim(lines[k])
  {
    hide Trim;
    if k > 0 {
      assert forall i :: 0 <= i < k - 1 ==> lines[1..][i] == lines[i + 1];
      FirstInkIs(lines[1..], k - 1);
    }
  }

  lemma FirstInkOfOne(line: string)
    ensures FirstInk([line]) == Trim(line)
  {
    hide Trim;
    assert [line][1..] == [];
  }

  lemma {:induction false} TrimStartFirst(x: string)
    ensures FirstInk(SplitLines(TrimStart(x))) == FirstInk(SplitLines(x))
  {
    hide IsSpace, Trim;
    if x != [] && IsSpace(x[0]) {
      TrimStartFirst(x[1..]);
      var lines := SplitLines(x[1..]);
      if x[0] == '\n' {
        EmptyFacts();
        assert ([""] + lines)[1..] == lines;
      } else {
        TrimFirst(x[0], lines[0]);
        assert Prepended(x[0], lines)[1..] == lines[1..];
      }
    }
  }

  lemma {:induction false} TrimEndFirst(x: string)
    ensures FirstInk(SplitLines(TrimEnd(x))) == FirstInk(SplitLines(x))
    decreases |x|
  {
    hide IsSpace, SplitLines, Trim, FirstInk;
    if x != [] && IsSpace(x[|x| - 1]) {
      var y, c := x[..|x| - 1], x[|x| - 1];
      assert x == y + [c];
      SplitSnoc(y, c);
      TrimEndFirst(y);
      var lines := SplitLines(y);
      var front, last := lines[..|lines| - 1], lines[|lines| - 1];
      EmptyFacts();
      FirstInkConcat(lines, [""]);
      FirstInkConcat(front, [last]);
      FirstInkConcat(front, [last + [c]]);
      assert lines == front + [last];
      FirstInkOfOne(last);
      FirstInkOfOne(last + [c]);
      FirstInkOfOne("");
      TrimLast(last, c);
    }
  }

  /** The first line of a trimmed text. */
  lemma FirstLine(text: string)
    requires Trimmed(text) && text != ""
    ensures var first := SplitLines(text)[0];
            first != "" && !IsSpace(first[0]) && FirstInk(SplitLines(text)) == Trim(first)
  {
    var first := SplitLines(text)[0];
    assert text[0] != '\n';
    assert first == [text[0]] + SplitLines(text[1..])[0];
    InkOfTrim(first);
    hide IsSpace, Trim, SplitLines;
    assert Ink(first) > 0;
  }

  // ---- The break stays when nothing is appended ----

  lemma StopsShort(lines: seq<string>, s: nat, m: nat)
    requires s < m < |lines| && HeadingFree(lines[s + 1..m + 1]) && EndsRegion(Kept(lines[m]), m == |lines| - 1)
    ensures !EndsWithSection(lines, s)
  {
    hide EndsRegion, Kept, IsHeading;
    var end := FindEnd(lines, s + 1);
    assert end <= m;
    assert !IsHeading(lines[s + 1..m + 1][end - s - 1]);
  }

  /** A break that is inside the region: some line of the old text, but not its last one
      any more, ends the region. */
  lemma BreakInside(was: seq<string>, j: nat, last: bool) returns (m: nat)
    requires AreLines(was) && j < |was| && !EndsRegion(was[j], last)
    requires EndsRegion(was[j], false) || (Marked(was[j]) && forall k :: 0 <= k < j ==> Trim(was[k]) == "")
    ensures var text := Trim(RegionText(was));
            text != "" && m < |SplitLines(text)| && EndsRegion(SplitLines(text)[m], false)
  {
    SplitJoin(was);
    TrimIsTrimmed(RegionText(was));
    var x, text, h := RegionText(was), Trim(RegionText(was)), was[j];
    if EndsRegion(h, false) {
      assert !Marker(h) && AfterHashes(h) == [];
      assert h == h[..Hashes(h)];
      assert h != "" && !IsSpace(h[0]) && !IsSpace(h[|h| - 1]);
      TrimStartLine(x, h);
      TrimEndLine(TrimStart(x), h);
      hide *;
      assert h in SplitLines(text) by { assert text == TrimEnd(TrimStart(x)); }
      m :| 0 <= m < |SplitLines(text)| && SplitLines(text)[m] == h;
      EmptyText();
    } else {
      hide SplitLines, EndsRegion, Trimmed;
      EmptyFacts();
      MarkedByInk(h, "");
      FirstInkIs(was, j);
      TrimStartFirst(x);
      TrimEndFirst(TrimStart(x));
      EmptyText();
      assert text != "";
      FirstLine(text);
      m := 0;
      MarkedByInk(h, SplitLines(text)[0]);
      MarkedAtStart(SplitLines(text)[0]);
    }
  }

  lemma EmptyText()
    ensures SplitLines("") == [""] && FirstInk(SplitLines("")) == ""
  {
    EmptyLines();
    EmptyFacts();
    FirstInkOfOne("");
  }

  lemma PartConcat(a: seq<string>, b: seq<string>)
    ensures HeadingFree(a + b) <==> HeadingFree(a) && HeadingFree(b)
  {
    hide IsHeading;
    assert forall i :: 0 <= i < |a| ==> a[i] == (a + b)[i];
    assert forall i :: 0 <= i < |b| ==> b[i] == (a + b)[|a| + i];
  }

  lemma NowIsHeadingFree(gap: seq<string>, before: seq<string>)
    requires (gap == [] || gap == [""]) && HeadingFree(before)
    ensures HeadingFree(gap + before + [""] + [""])
  {
    EmptyFacts();
    hide IsHeading;
  }

  /** The region that the next edit finds ends before the section does. */
  lemma BreakStays(lines: seq<string>, s: nat, j: nat, title: string)
    requires Whole(lines) && AreLines(lines) && InSection(lines, s, j + 1, title) && Breaks(lines, s, j)
    requires HeadingFree(Before(Region(lines, s))) && Whole(All(PartsOf(lines, s, "")))
    ensures !EndsWithSection(All(PartsOf(lines, s, "")), s)
  {
    hide IsHeading, HasTerminator, Whole, AreLines, EndsRegion, Kept, Marked, Trim, Region, NoneTitled, Titled, IsEvidence, SplitLines, FindEnd, RegionText, EndsWithSection, Breaks, HeadingFree;
    var p := PartsOf(lines, s, "");
    var all, end := All(p), FindEnd(lines, s + 1);
    GapIs(lines, s);
    NowIsHeadingFree(Gap(lines, s), Before(Region(lines, s)));
    if j < end {
      BreakNow(lines, s, j);
    } else {
      var m := |p.front| + |p.now|;
      SplitAt(lines, s + 1, end, j + 1);
      BehindNow(p.front, p.now, p.back, s);
      assert p.back[0] == lines[end] && |all| - m == |lines| - end;
      EndOfLine(lines, end);
      LineIsKept(all, m);
      PartConcat(lines[s + 1..end] + [lines[end]], lines[end + 1..j + 1]);
      PartConcat(lines[s + 1..end], [lines[end]]);
      PartConcat(p.now, [lines[end]]);
      StopsShort(all, s, m);
    }
  }

  lemma SplitAt(lines: seq<string>, i: nat, k: nat, j: nat)
    requires i <= k < j <= |lines|
    ensures lines[i..j] == lines[i..k] + [lines[k]] + lines[k + 1..j]
  {
  }

  lemma BehindNow(front: seq<string>, now: seq<string>, back: seq<string>, s: nat)
    requires |front| == s + 1 && back != []
    ensures var all, m := front + now + back, |front| + |now|;
            all[m] == back[0] && all[s + 1..m + 1] == now + [back[0]]
  {
  }

  lemma EndOfLine(lines: seq<string>, end: nat)
    requires Whole(lines) && end < |lines| && EndsRegion(Kept(lines[end]), end == |lines| - 1)
    ensures EndsRegion(lines[end], end == |lines| - 1)
  {
    hide EndsRegion, Kept, Whole;
    LineIsKept(lines, end);
  }

  lemma BreakNow(lines: seq<string>, s: nat, j: nat)
    requires Whole(lines) && AreLines(lines) && Breaks(lines, s, j) && j < FindEnd(lines, s + 1)
    requires HeadingFree(PartsOf(lines, s, "").now) && Whole(All(PartsOf(lines, s, "")))
    ensures !EndsWithSection(All(PartsOf(lines, s, "")), s)
  {
    hide IsHeading, HasTerminator, Whole, OneLine, EndsRegion, Kept, Marked, Trim, SplitLines, FindEnd, RegionText, EndsWithSection;
    var end := FindEnd(lines, s + 1);
    var was, p := lines[s + 1..end], PartsOf(lines, s, "");
    var all := All(p);
    LineIsKept(lines, j);
    var k := BreakInside(was, j - s - 1, j == |lines| - 1);
    var gap, before := Gap(lines, s), Before(Region(lines, s));
    assert before == SplitLines(Region(lines, s)) + [""];
    var m := |p.front| + |gap| + k;
    InsideNow(p.front, gap, SplitLines(Region(lines, s)), p.now, p.back, s, k);
    LineIsKept(all, m);
    PartConcat(all[s + 1..m + 1], p.now[|gap| + k + 1..]);
    StopsShort(all, s, m);
  }

  lemma InsideNow(front: seq<string>, gap: seq<string>, text: seq<string>, now: seq<string>, back: seq<string>, s: nat, k: nat)
    requires |front| == s + 1 && k < |text| && now == gap + (text + [""]) + [""] + [""]
    ensures var all, m := front + now + back, |front| + |gap| + k;
            m < |all| - 1 && all[m] == text[k] && now == all[s + 1..m + 1] + now[|gap| + k + 1..]
  {
    var all, m := front + now + back, |front| + |gap| + k;
    assert all[m] == now[|gap| + k] == (gap + (text + [""]))[|gap| + k] == text[k];
    assert all[s + 1..m + 1] == now[..|gap| + k + 1];
  }

  // ---- Whole texts ----

  lemma {:induction false} WholeText(x: string)
    ensures Whole(SplitLines(x)) <==> !HasTerminator(x)
  {
    if x == [] {
      EmptyFacts();
      assert SplitLines(x) == [""];
    } else {
      hide Terminator;
      WholeText(x[1..]);
      var lines, more := SplitLines(x[1..]), SplitLines(x);
      assert x == [x[0]] + x[1..];
      TerminatorConcat([x[0]], x[1..]);
      NewlineIsNoTerminator();
      TerminatorOne(x[0]);
      if x[0] == '\n' {
        WholeConcat([""], lines);
        EmptyFacts();
      } else {
        TerminatorConcat([x[0]], lines[0]);
        WholeOne([x[0]] + lines[0]);
        WholeOne(lines[0]);
        assert more == [[x[0]] + lines[0]] + lines[1..] && lines == [lines[0]] + lines[1..];
        WholeConcat([[x[0]] + lines[0]], lines[1..]);
        WholeConcat([lines[0]], lines[1..]);
      }
    }
  }

  lemma NewlineIsNoTerminator()
    ensures !Terminator('\n')
  {
  }

  lemma TerminatorOne(c: char)
    ensures HasTerminator([c]) <==> Terminator(c)
  {
    assert [c][0] == c;
  }

  lemma TerminatorConcat(a: string, b: string)
    ensures HasTerminator(a + b) <==> HasTerminator(a) || HasTerminator(b)
  {
    hide Terminator;
    assert forall i :: 0 <= i < |a| ==> a[i] == (a + b)[i];
    assert forall i :: 0 <= i < |b| ==> b[i] == (a + b)[|a| + i];
    if HasTerminator(a + b) {
      var i :| 0 <= i < |a + b| && Terminator((a + b)[i]);
      assert i >= |a| ==> (a + b)[i] == b[i - |a|];
    }
  }

  lemma WholeTrim(x: string)
    requires Whole(SplitLines(x))
    ensures Whole(SplitLines(Trim(x)))
  {
    hide Trim, SplitLines, HasTerminator, Whole;
    WholeText(x);
    WholeText(Trim(x));
    var a, b := TrimSplits(x);
    TerminatorConcat(a + Trim(x), b);
    TerminatorConcat(a, Trim(x));
  }

  /** An append of a note leaves whole lines. */
  lemma AppendIsWhole(lines: seq<string>, start: nat, c: string)
    requires Whole(lines) && AreLines(lines) && start < |lines| && IsNote(c)
    ensures Whole(All(PartsOf(lines, start, c)))
  {
    hide Trim, SplitLines, HasTerminator, Whole, FindEnd, RegionText, IsNote;
    var p := PartsOf(lines, start, c);
    var gap, before := Gap(lines, start), Before(Region(lines, start));
    WholeParts(p.front, p.was, p.back, lines);
    GapIs(lines, start);
    NoteFacts(c);
    WholeOne(c);
    EmptyFacts();
    WholeOne("");
    WholeNone();
    BeforeIsWhole(lines, start);
    WholeConcat(p.front + p.now, p.back);
    WholeConcat(p.front, p.now);
    WholeConcat(gap + before + [c], [""]);
    WholeConcat(gap + before, [c]);
    WholeConcat(gap, before);
  }

  lemma WholeOne(line: string)
    ensures Whole([line]) <==> !HasTerminator(line)
  {
    hide HasTerminator;
    assert [line][0] == line;
  }

  lemma WholeNone()
    ensures Whole([])
  {
  }

  lemma BeforeIsWhole(lines: seq<string>, start: nat)
    requires Whole(lines) && AreLines(lines) && start < |lines|
    ensures Whole(Before(Region(lines, start)))
  {
    hide Trim, SplitLines, HasTerminator, Whole, FindEnd, AreLines;
    var end := FindEnd(lines, start + 1);
    var was := lines[start + 1..end];
    assert lines == lines[..start + 1] + was + lines[end..];
    WholeParts(lines[..start + 1], was, lines[end..], lines);
    LinesOfPart(lines, start + 1, end);
    RegionIsWhole(was);
    WholeNone();
    EmptyFacts();
    WholeOne("");
    WholeConcat(SplitLines(Region(lines, start)), [""]);
  }

  lemma RegionIsWhole(was: seq<string>)
    requires Whole(was) && AreLines(was)
    ensures Whole(SplitLines(Trim(RegionText(was))))
  {
    hide Trim, SplitLines, HasTerminator, Whole, AreLines, JoinLines;
    if was != [] {
      SplitJoin(was);
    } else {
      EmptyLines();
      EmptyFacts();
      WholeOne("");
    }
    WholeTrim(RegionText(was));
  }

  // ---- Whole bodies ----

  /** A title of Evidence makes a valid append. */
  lemma EvidenceTitle(line: string, title: string)
    requires Titled(line, title) && IsEvidence(title)
    ensures Trim(title) == title && title != "" && forall c :: ValidOperation(Operation(title, Append, c))
  {
    TitleIsTrimmed(line, title);
    assert |LowerCase(title)| == |title| && LowerCase(title) == "evidence";
    forall i | 0 <= i < |title|
      ensures title[i] != '\n' && title[i] != '\r' && title[i] != '#'
    {
      assert LowerCase(title)[i] == Lower(title[i]);
    }
  }

  lemma TitleIsTrimmed(line: string, title: string)
    requires Titled(line, title)
    ensures Trim(title) == title
  {
    var rest := AfterHashes(line);
    TrimIsTrimmed(rest);
    var t := TrimStart(rest);
    TrimEndIs(t);
    hide IsSpace, Hashes, HasTerminator, TrimStart, TrimEnd;
    if t != [] {
      assert title == TrimEnd(t) == Trim(rest);
    } else {
      EmptyFacts();
    }
  }

  lemma {:induction false} FindStartAt(lines: seq<string>, heading: string, i: nat, s: nat)
    requires i <= s < |lines| && StartsRegion(Kept(lines[s]), heading)
    requires forall k :: i <= k < s ==> !StartsRegion(Kept(lines[k]), heading)
    ensures FindStart(lines, heading, i) == s
    decreases s - i
  {
    hide StartsRegion, Kept;
    if i < s {
      FindStartAt(lines, heading, i + 1, s);
    }
  }

  lemma SectionIsFound(lines: seq<string>, s: nat, title: string)
    requires Whole(lines) && s < |lines| && Titled(lines[s], title) && NoneTitled(lines[..s], title) && title != ""
    ensures FindStart(lines, title, 0) == s
  {
    hide StartsRegion, Kept, Titled, Whole;
    StartIsTitled(lines, s, title);
    forall k | 0 <= k < s
      ensures !StartsRegion(Kept(lines[k]), title)
    {
      assert !Titled(lines[..s][k], title);
      StartIsTitled(lines, k, title);
    }
    FindStartAt(lines, title, 0, s);
  }

  /** The note that does nothing but trim the section, and the one that closes it. */
  function Nothing(title: string): Operation {
    Operation(title, Append, "")
  }

  function NewHeading(title: string): Operation {
    Operation(title, Append, "## Z")
  }

  /** What an append of a note to a first Evidence section does. */
  lemma NoteAppended(body: string, op: Operation, s: nat, title: string)
    requires Whole(SplitLines(body)) && s < |SplitLines(body)| && Titled(SplitLines(body)[s], title) && IsEvidence(title)
    requires NoneTitled(SplitLines(body)[..s], title) && op.heading == title && op.action.Append? && IsNote(op.content)
    ensures ValidOperation(op) && FindStart(SplitLines(body), Trim(op.heading), 0) == s
    ensures SplitLines(Edited(body, op)) == All(PartsOf(SplitLines(body), s, op.content)) && Whole(SplitLines(Edited(body, op)))
  {
    hide SplitLines, Trim, FindStart, Edited, Whole, IsNote, Titled, IsEvidence, NoneTitled, PartsOf, All, ValidOperation;
    var lines := SplitLines(body);
    EvidenceTitle(lines[s], title);
    assert op == Operation(title, Append, op.content);
    SectionIsFound(lines, s, title);
    AppendIs(body, op, s);
    SplitAreLines(body);
    AppendIsWhole(lines, s, op.content);
  }

  lemma FrontStays(lines: seq<string>, s: nat, c: string, title: string)
    requires s < |lines| && Titled(lines[s], title) && NoneTitled(lines[..s], title)
    ensures var all := All(PartsOf(lines, s, c));
            s < |all| && Titled(all[s], title) && NoneTitled(all[..s], title)
  {
    hide Titled, FindEnd, Region, Gap, Before;
    var all := All(PartsOf(lines, s, c));
    assert all[s] == lines[s] && all[..s] == lines[..s];
  }

  /** Two appends to a broken Evidence section are enough to have fewer lines of evidence. */
  lemma BrokenLoses(body: string, s: nat, j: nat, title: string) returns (ops: seq<Operation>)
    requires Whole(SplitLines(body)) && InSection(SplitLines(body), s, j + 1, title) && Breaks(SplitLines(body), s, j)
    ensures ops != [] && ValidOperations(ops) && FindStart(SplitLines(body), Trim(ops[0].heading), 0) < |SplitLines(body)|
    ensures Fewer(Evidence("", SplitLines(EditedAll(body, ops))), Evidence("", SplitLines(body)))
  {
    hide SplitLines, Trim, FindStart, Edited, Whole, AreLines, Titled, IsEvidence, NoneTitled, PartsOf, All, ValidOperation, HeadingFree, Breaks, EndsWithSection, Evidence, Before, Region;
    var lines := SplitLines(body);
    SplitAreLines(body);
    var once := Edited(body, Nothing(title));
    NoteAppended(body, Nothing(title), s, title);
    AppendAddsNothing(lines, s, title, "");
    OneEdit(body, Nothing(title));
    if HeadingFree(Before(Region(lines, s))) {
      BreakStays(lines, s, j, title);
      FrontStays(lines, s, "", title);
      NoteAppended(once, NewHeading(title), s, title);
      SplitAreLines(once);
      HeadingTakesRest(SplitLines(once), s, title, "## Z");
      ops := [Nothing(title), NewHeading(title)];
      TwoEdits(body, Nothing(title), NewHeading(title));
      FewerStill(Evidence("", SplitLines(EditedAll(body, ops))), Evidence("", SplitLines(once)), Evidence("", lines));
    } else {
      ops := [Nothing(title)];
    }
  }

  /** An unsafe body of whole lines has fewer lines of evidence after such a patch. */
  lemma WholeLoses(body: string) returns (ops: seq<Operation>)
    requires Whole(SplitLines(body)) && !BodySafe(Start(), SplitLines(body))
    ensures ops != [] && ValidOperations(ops) && FindStart(SplitLines(body), Trim(ops[0].heading), 0) < |SplitLines(body)|
    ensures Fewer(Evidence("", SplitLines(EditedAll(body, ops))), Evidence("", SplitLines(body)))
  {
    hide *;
    var s, j, title := BrokenSection(SplitLines(body));
    ops := BrokenLoses(body, s, j, title);
  }

  lemma FewerStill(a: multiset<string>, b: multiset<string>, c: multiset<string>)
    requires Fewer(a, b) && b <= c
    ensures Fewer(a, c)
  {
    SizeOfPart(b, c);
  }

  lemma OneEdit(body: string, op: Operation)
    ensures EditedAll(body, [op]) == Edited(body, op)
  {
    hide Edited;
    assert [op][..0] == [];
  }

  lemma TwoEdits(body: string, a: Operation, b: Operation)
    ensures EditedAll(body, [a, b]) == Edited(Edited(body, a), b)
  {
    hide Edited;
    OneEdit(body, a);
    assert [a, b][..1] == [a];
  }
}
