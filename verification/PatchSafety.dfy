/** Whole validated patches: whatever lasts in a body is still there after every sequence
    of validated operations, with whatever contents. */
module PatchSafety {
  import opened Text
  import opened MarkdownLines
  import opened SectionParser
  import opened SectionEdits
  import opened SectionAdds
  import opened SectionSafety
  import opened SectionModes

  // ---- An edit of an existing section works on the cut lines ----

  lemma KeptTwice(line: string)
    ensures Kept(Kept(line)) == Kept(line)
  {
    KeptHasNoTerminator(line);
    KeptIsWhole(Kept(line));
  }

  lemma {:induction false} CutFindStart(lines: seq<string>, heading: string, i: nat)
    requires i <= |lines|
    ensures FindStart(Cut(lines), heading, i) == FindStart(lines, heading, i)
    decreases |lines| - i
  {
    hide Kept, StartsRegion;
    if i < |lines| {
      KeptTwice(lines[i]);
      CutFindStart(lines, heading, i + 1);
    }
  }

  lemma {:induction false} CutFindEnd(lines: seq<string>, i: nat)
    requires i <= |lines|
    ensures FindEnd(Cut(lines), i) == FindEnd(lines, i)
    decreases |lines| - i
  {
    hide Kept, EndsRegion;
    if i < |lines| {
      KeptTwice(lines[i]);
      CutFindEnd(lines, i + 1);
    }
  }

  lemma CutPiece(lines: seq<string>, i: nat)
    requires i < |lines|
    ensures Piece(Cut(lines), i) == Piece(lines, i)
  {
    hide Kept;
    KeptTwice(lines[i]);
  }

  lemma {:induction false} CutPieces(lines: seq<string>, i: nat, j: nat)
    requires i <= j <= |lines|
    ensures Pieces(Cut(lines), i, j) == Pieces(lines, i, j)
    decreases j - i
  {
    hide Kept, Cut, Piece;
    if i < j {
      CutPiece(lines, i);
      CutPieces(lines, i + 1, j);
    }
  }

  lemma CutSplits(body: string)
    ensures SplitLines(JoinLines(Cut(SplitLines(body)))) == Cut(SplitLines(body)) && Whole(Cut(SplitLines(body)))
  {
    hide SplitLines, Cut, JoinLines;
    SplitAreLines(body);
    CutIsWhole(SplitLines(body));
    SplitJoin(Cut(SplitLines(body)));
  }

  /** Every line is cut before the edit, if the section is there. */
  lemma EditsTheCut(body: string, op: Operation)
    requires FindStart(SplitLines(body), Trim(op.heading), 0) < |SplitLines(body)|
    ensures Edited(JoinLines(Cut(SplitLines(body))), op) == Edited(body, op)
    ensures FindStart(Cut(SplitLines(body)), Trim(op.heading), 0) < |SplitLines(body)|
  {
    hide SplitLines, Cut, JoinLines, Trim, FindStart, FindEnd, Pieces, Edited, Content, Around;
    var lines, start := SplitLines(body), FindStart(SplitLines(body), Trim(op.heading), 0);
    CutSplits(body);
    CutFindStart(lines, Trim(op.heading), 0);
    CutFindEnd(lines, start + 1);
    CutPieces(lines, 0, start + 1);
    CutPieces(lines, start + 1, FindEnd(lines, start + 1));
    CutPieces(lines, FindEnd(lines, start + 1), |lines|);
    EditedIs(body, op, start);
    EditedIs(JoinLines(Cut(lines)), op, start);
  }

  // ---- The state at the edited section ----

  lemma {:induction false} SeenGrows(st: State, lines: seq<string>)
    ensures st.seen <= AfterAll(st, lines).seen
    decreases |lines|
  {
    hide HeadingTitle, Kept, Entered, Continued;
    if lines != [] {
      SeenGrows(After(st, lines[0]), lines[1..]);
    }
  }

  lemma {:induction false} NotSeen(st: State, lines: seq<string>, title: string)
    requires Whole(lines) && title !in st.seen && NoneTitled(lines, title)
    ensures title !in AfterAll(st, lines).seen
    decreases |lines|
  {
    hide HeadingTitle, Kept, Entered, Continued, Whole, HasTerminator;
    if lines != [] {
      WholeTail(lines);
      assert !Titled(lines[0], title);
      assert forall i :: 0 <= i < |lines| - 1 ==> lines[1..][i] == lines[i + 1];
      NotSeen(After(st, lines[0]), lines[1..], title);
    }
  }

  /** Right behind the first heading with a title. */
  lemma FrontState(front: seq<string>, start: nat, title: string)
    requires Whole(front) && |front| == start + 1 && Titled(front[start], title) && NoneTitled(front[..start], title)
    ensures var st := AfterAll(Start(), front);
            st.title == title && title in st.seen && st.mode == if IsEvidence(title) then Fresh else Never
  {
    hide HeadingTitle, Kept, IsEvidence, Continued, HasTerminator;
    assert front == front[..start] + [front[start]];
    WholeConcat(front[..start], [front[start]]);
    NotSeen(Start(), front[..start], title);
    LastingConcat(Start(), front[..start], [front[start]]);
    LastingOne(AfterAll(Start(), front[..start]), front[start]);
    assert !HasTerminator([front[start]][0]);
    KeptIsWhole(front[start]);
  }

  /** Through a region, which holds no heading. */
  lemma {:induction false} RegionState(st: State, was: seq<string>)
    requires Whole(was) && HeadingFree(was) && !st.mode.Always?
    ensures var after := AfterAll(st, was);
            after.title == st.title && after.seen == st.seen && !after.mode.Always? && (st.mode.Never? ==> after.mode.Never?)
    ensures st.mode.Never? ==> Lasting(st, was) == multiset{}
    decreases |was|
  {
    hide HeadingTitle, IsHeading, Kept, IsEvidence, HasTerminator, Whole, Trim, Marked, EndsRegion;
    if was != [] {
      WholeTail(was);
      assert !IsHeading(was[0]);
      assert forall i :: 0 <= i < |was| - 1 ==> was[1..][i] == was[i + 1];
      RegionState(After(st, was[0]), was[1..]);
    }
  }

  /** Behind the edited region nothing that lasts depends on the region. */
  lemma BackLasts(a: State, b: State, back: seq<string>)
    requires !a.mode.Always? && a.seen <= b.seen && Whole(back)
    requires back != [] ==> EndsRegion(back[0], |back| == 1)
    ensures Lasting(a, back) <= Lasting(b, back)
  {
    hide Lasts, After, HasTerminator, Whole, EndsRegion, Trim;
    var never := State(a.title, Never, a.seen);
    if back != [] {
      WholeTail(back);
      EndOfRegion(a, never, back[0], |back| == 1);
    }
    BetterLasting(never, b, back);
  }

  lemma EndOfRegion(a: State, never: State, line: string, last: bool)
    requires !a.mode.Always? && never == State(a.title, Never, a.seen) && EndsRegion(line, last) && Kept(line) == line
    ensures After(a, line) == After(never, line) && !Lasts(a, line) && !Lasts(never, line)
  {
    hide IsEvidence, HeadingTitle, Trim, Kept, Marked;
    EndsIsMarked(line, last);
    assert EndsRegion(line, false);
    EmptyFacts();
    MarkedByInk(line, "");
  }

  // ---- One edit of an existing section ----

  /** The new text of an appended section holds what lasts of the old one. */
  lemma ContentLasts(st: State, op: Operation, was: seq<string>, gap: seq<string>)
    requires st.mode.Fresh? && Whole(was) && AreLines(was) && op.action.Append? && (gap == [] || gap == [""])
    ensures Lasting(st, was) <= Lasting(st, gap + SplitLines(Content(op, Trim(RegionText(was)))) + [""])
  {
    hide Lasting, AfterAll, SplitLines, Trim, RegionText, Whole, AreLines, After;
    var existing, c := Trim(RegionText(was)), Trim(op.content);
    var content := Content(op, existing);
    ExistingLasts(st, was);
    EmptyDoesNotLast(st);
    LastingOne(st, "");
    if |existing| > 0 {
      SplitConcat(existing, "");
      SplitConcat(existing + "\n" + "", c);
      EmptyLines();
      assert existing + "\n" + "" + "\n" + c == existing + "\n\n" + c;
      LastingConcat(st, SplitLines(existing), [""] + SplitLines(c));
      assert SplitLines(content) == SplitLines(existing) + ([""] + SplitLines(c));
    } else {
      EmptyLines();
      assert existing == "";
    }
    LastingConcat(st, gap, SplitLines(content));
    LastingConcat(st, gap + SplitLines(content), [""]);
    NothingLasting(st);
  }

  lemma NothingLasting(st: State)
    ensures Lasting(st, []) == multiset{} && AfterAll(st, []) == st
  {
  }

  lemma ExistingLasts(st: State, was: seq<string>)
    requires st.mode.Fresh? && Whole(was) && AreLines(was)
    ensures Lasting(st, was) <= Lasting(st, SplitLines(Trim(RegionText(was))))
  {
    hide Lasting, SplitLines, Trim, Whole, AreLines, JoinLines;
    if was != [] {
      SplitJoin(was);
      TrimKeepsLasting(st, RegionText(was));
    } else {
      NothingLasting(st);
    }
  }

  /** Exchanging the lines of a region under the first heading with its title. */
  lemma ExchangeLasts(front: seq<string>, was: seq<string>, now: seq<string>, back: seq<string>, start: nat, title: string)
    requires Whole(front) && Whole(was) && Whole(back) && HeadingFree(was)
    requires |front| == start + 1 && Titled(front[start], title) && NoneTitled(front[..start], title)
    requires back != [] ==> EndsRegion(back[0], |back| == 1)
    requires IsEvidence(title) ==> Lasting(AfterAll(Start(), front), was) <= Lasting(AfterAll(Start(), front), now)
    ensures Lasting(Start(), front + was + back) <= Lasting(Start(), front + now + back)
  {
    hide Titled, IsEvidence, Lasting, AfterAll, After, Whole, HeadingFree, NoneTitled, EndsRegion;
    var st := AfterAll(Start(), front);
    FrontState(front, start, title);
    RegionState(st, was);
    LastingConcat(Start(), front + was, back);
    LastingConcat(Start(), front, was);
    LastingConcat(Start(), front + now, back);
    LastingConcat(Start(), front, now);
    SeenGrows(st, now);
    BackLasts(AfterAll(st, was), AfterAll(st, now), back);
  }

  lemma {:induction false} HeadingFreeHasNoFirm(lines: seq<string>)
    requires HeadingFree(lines)
    ensures Firm(lines) == multiset{}
  {
    hide HeadingTitle, IsHeading, HasTerminator, Trim;
    if lines != [] {
      assert !IsHeading(lines[0]);
      assert forall i :: 0 <= i < |lines| - 1 ==> lines[1..][i] == lines[i + 1];
      HeadingFreeHasNoFirm(lines[1..]);
    }
  }

  lemma ExchangeFirm(front: seq<string>, was: seq<string>, now: seq<string>, back: seq<string>)
    requires HeadingFree(was)
    ensures Firm(front + was + back) <= Firm(front + now + back)
  {
    hide Firm, HeadingFree;
    HeadingFreeHasNoFirm(was);
    FirmConcat(front + was, back);
    FirmConcat(front, was);
    FirmConcat(front + now, back);
    FirmConcat(front, now);
  }

  lemma NoneBefore(lines: seq<string>, start: nat, title: string)
    requires Whole(lines) && title != "" && start == FindStart(lines, title, 0)
    ensures NoneTitled(lines[..start], title)
  {
    hide StartsRegion, Titled, Kept, Whole;
    forall k | 0 <= k < start
      ensures !Titled(lines[..start][k], title)
    {
      StartIsTitled(lines, k, title);
    }
  }

  lemma LinesOfPart(lines: seq<string>, i: nat, j: nat)
    requires i <= j <= |lines| && AreLines(lines)
    ensures AreLines(lines[i..j])
  {
    hide OneLine;
  }

  lemma WholeParts(front: seq<string>, was: seq<string>, back: seq<string>, lines: seq<string>)
    requires Whole(lines) && lines == front + was + back
    ensures Whole(front) && Whole(was) && Whole(back)
  {
    WholeConcat(front + was, back);
    WholeConcat(front, was);
  }

  lemma WholeEditLasts(body: string, op: Operation, start: nat)
    requires Whole(SplitLines(body)) && ValidOperation(op)
    requires start == FindStart(SplitLines(body), Trim(op.heading), 0) && start < |SplitLines(body)|
    ensures Lasting(Start(), SplitLines(body)) <= Lasting(Start(), SplitLines(Edited(body, op)))
    ensures Firm(SplitLines(body)) <= Firm(SplitLines(Edited(body, op)))
  {
    hide Kept, StartsRegion, EndsRegion, Trim, Pieces, SplitLines, Content, RegionText, Edited, FindStart, FindEnd, Whole, HeadingTitle, Lasting, Firm, Titled, HeadingFree, IsEvidence, AreLines, AfterAll, Start, NoneTitled;
    var lines, title := SplitLines(body), Trim(op.heading);
    var end := FindEnd(lines, start + 1);
    var front, was, back := lines[..start + 1], lines[start + 1..end], lines[end..];
    var content := SplitLines(Content(op, Region(lines, start)));
    var now := Gap(lines, start) + content + [""];
    EditedLines(body, op);
    StartIsTitled(lines, start, title);
    NoneBefore(lines, start, title);
    assert front[..start] == lines[..start];
    RegionIsHeadingFree(lines, start);
    WholeParts(front, was, back, lines);
    SplitAreLines(body);
    LinesOfPart(lines, start + 1, end);
    TitleIsEvidence(op);
    if IsEvidence(title) {
      FrontState(front, start, title);
      ContentLasts(AfterAll(Start(), front), op, was, Gap(lines, start));
    }
    EndIsKept(lines, end);
    ExchangeLasts(front, was, now, back, start, title);
    ExchangeFirm(front, was, now, back);
    assert SplitLines(Edited(body, op)) == front + now + back;
    assert lines == front + was + back;
  }

  lemma EndIsKept(lines: seq<string>, end: nat)
    requires Whole(lines) && end <= |lines| && (end < |lines| ==> EndsRegion(Kept(lines[end]), end == |lines| - 1))
    ensures end < |lines| ==> EndsRegion(lines[end..][0], |lines[end..]| == 1)
  {
    hide EndsRegion, Kept, HasTerminator;
    if end < |lines| {
      KeptIsWhole(lines[end]);
    }
  }

  // ---- Any operation ----

  lemma ExistingSectionLasts(body: string, op: Operation)
    requires ValidOperation(op) && FindStart(SplitLines(body), Trim(op.heading), 0) < |SplitLines(body)|
    ensures Lasting(Start(), SplitLines(body)) <= Lasting(Start(), SplitLines(Edited(body, op)))
    ensures Firm(SplitLines(body)) <= Firm(SplitLines(Edited(body, op)))
  {
    hide SplitLines, Cut, Lasting, Firm, Edited, FindStart, ValidOperation, Trim, JoinLines, Whole;
    var cut := JoinLines(Cut(SplitLines(body)));
    EditsTheCut(body, op);
    CutSplits(body);
    CutKeepsLasting(Start(), Start(), SplitLines(body));
    CutKeepsFirm(SplitLines(body));
    WholeEditLasts(cut, op, FindStart(SplitLines(cut), Trim(op.heading), 0));
  }

  lemma NewSectionLasts(body: string, op: Operation)
    requires ValidOperation(op) && FindStart(SplitLines(body), Trim(op.heading), 0) == |SplitLines(body)|
    ensures Lasting(Start(), SplitLines(body)) <= Lasting(Start(), SplitLines(Edited(body, op)))
    ensures Firm(SplitLines(body)) <= Firm(SplitLines(Edited(body, op)))
  {
    hide Trim, SplitLines, FindStart, Lasting, Firm, TrimEnd, AfterAll, IsEvidence, OneLine;
    var title := Trim(op.heading);
    var kept, tail := SplitLines(TrimEnd(body)), ["", Heading(title), ""] + SplitLines(Trim(op.content)) + [""];
    TrimEndKeepsLasting(Start(), body);
    NewSectionLines(body, title, op.content);
    LastingConcat(Start(), kept, tail);
    FirmConcat(kept, tail);
    assert SplitLines(Edited(body, op)) == kept + tail;
  }

  /** A validated operation loses nothing that lasts, whatever the body and the content. */
  lemma OperationKeepsLasting(body: string, op: Operation)
    requires ValidOperation(op)
    ensures Lasting(Start(), SplitLines(body)) <= Lasting(Start(), SplitLines(Edited(body, op)))
    ensures Firm(SplitLines(body)) <= Firm(SplitLines(Edited(body, op)))
  {
    hide *;
    if FindStart(SplitLines(body), Trim(op.heading), 0) < |SplitLines(body)| {
      ExistingSectionLasts(body, op);
    } else {
      NewSectionLasts(body, op);
    }
  }

  // ---- A whole patch ----

  lemma {:induction false} PatchKeepsLasting(body: string, ops: seq<Operation>)
    requires ValidOperations(ops)
    ensures Lasting(Start(), SplitLines(body)) <= Lasting(Start(), SplitLines(EditedAll(body, ops)))
    ensures Firm(SplitLines(body)) <= Firm(SplitLines(EditedAll(body, ops)))
  {
    hide Edited, Lasting, Firm, SplitLines, ValidOperation;
    if ops != [] {
      PatchKeepsLasting(body, ops[..|ops| - 1]);
      OperationKeepsLasting(EditedAll(body, ops[..|ops| - 1]), ops[|ops| - 1]);
    }
  }

  /** Nothing of the first body is missing in the second: no titled heading and no inked
      Evidence line, counted with multiplicity. */
  ghost predicate NothingLost(body: string, next: string) {
    && Headings(SplitLines(body)) <= Headings(SplitLines(next))
    && Evidence("", SplitLines(body)) <= Evidence("", SplitLines(next))
  }

  /** No sequence of validated operations, with whatever contents, loses a heading or an
      inked Evidence line of a safe body. */
  lemma PatchKeepsEvidence(body: string, ops: seq<Operation>)
    requires BodySafe(Start(), SplitLines(body)) && ValidOperations(ops)
    ensures NothingLost(body, EditedAll(body, ops))
  {
    hide BodySafe, Lasting, Firm, SplitLines, EditedAll, Evidence, Headings, ValidOperations;
    PatchKeepsLasting(body, ops);
    SafeLasts(Start(), SplitLines(body));
    LastingIsEvidence(Start(), SplitLines(EditedAll(body, ops)));
    FirmIsHeadings(SplitLines(EditedAll(body, ops)));
  }

  /** The bullets of the evidence entries: trimmed, blank ones dropped. */
  function Bullets(evidence: seq<string>): seq<string> {
    if evidence == [] then []
    else
      var front, last := Bullets(evidence[..|evidence| - 1]), Trim(evidence[|evidence| - 1]);
      if last == "" then front else front + ["- " + last]
  }

  function EvidenceAppended(body: string, evidence: seq<string>, heading: string): string {
    if Bullets(evidence) == [] then body else Edited(body, Operation(heading, Append, JoinLines(Bullets(evidence))))
  }

  /** A validated patch as a whole, its operations and then its evidence entries. */
  lemma PatchWithEvidenceKeeps(body: string, ops: seq<Operation>, evidence: seq<string>, heading: string)
    requires BodySafe(Start(), SplitLines(body)) && ValidOperations(ops) && heading == "Evidence"
    ensures NothingLost(body, EvidenceAppended(EditedAll(body, ops), evidence, heading))
  {
    hide BodySafe, SplitLines, Trim, Edited, JoinLines, NothingLost, ValidOperation, Bullets;
    if Bullets(evidence) == [] {
      PatchKeepsEvidence(body, ops);
    } else {
      var op := Operation(heading, Append, JoinLines(Bullets(evidence)));
      EvidenceIsValid(heading, JoinLines(Bullets(evidence)));
      assert (ops + [op])[..|ops + [op]| - 1] == ops;
      PatchKeepsEvidence(body, ops + [op]);
    }
  }

  lemma EvidenceIsValid(heading: string, content: string)
    requires heading == "Evidence"
    ensures ValidOperation(Operation(heading, Append, content))
  {
    assert Trimmed(heading);
    TrimOfTrimmed(heading);
    hide IsSpace;
  }
}
