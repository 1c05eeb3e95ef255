/** The section edits of backlog-curation-apply-utils.ts against the section parser.
    Bodies use LF line ends and contain no carriage return. */
module SectionEdits {
  import opened Text
  import opened MarkdownLines
  import opened SectionParser

  datatype Action = Replace | Append

  datatype Operation = Operation(heading: string, action: Action, content: string)

  // ---- Lines as the edit sees them ----

  /** What splitLinesPreservingEndings keeps of a line: a dot does not match a line
      terminator, so only the text after the last one is matched. */
  function Kept(line: string): string {
    if line == [] || Terminator(line[|line| - 1]) then [] else Kept(line[..|line| - 1]) + [line[|line| - 1]]
  }

  function Piece(lines: seq<string>, i: nat): string
    requires i < |lines|
  {
    if i == |lines| - 1 then Kept(lines[i]) else Kept(lines[i]) + "\n"
  }

  /** The pieces from i up to j, joined. */
  function Pieces(lines: seq<string>, i: nat, j: nat): string
    requires i <= j <= |lines|
    decreases j - i
  {
    if i == j then "" else Piece(lines, i) + Pieces(lines, i + 1, j)
  }

  /** A heading line with the title, for the edit. */
  predicate StartsRegion(line: string, heading: string) {
    Marker(line) && Trim(AfterHashes(line)) == heading
  }

  /** A line that ends the edited region: hashes, then whitespace or the line's end. */
  predicate EndsRegion(line: string, last: bool) {
    Marker(line) || (2 <= Hashes(line) <= 6 && AfterHashes(line) == [] && !last)
  }

  function FindStart(lines: seq<string>, heading: string, i: nat): (start: nat)
    requires i <= |lines|
    ensures i <= start <= |lines|
    ensures forall k :: i <= k < start ==> !StartsRegion(Kept(lines[k]), heading)
    ensures start < |lines| ==> StartsRegion(Kept(lines[start]), heading)
    decreases |lines| - i
  {
    if i == |lines| || StartsRegion(Kept(lines[i]), heading) then i else FindStart(lines, heading, i + 1)
  }

  function FindEnd(lines: seq<string>, i: nat): (end: nat)
    requires i <= |lines|
    ensures i <= end <= |lines|
    ensures forall k :: i <= k < end ==> !EndsRegion(Kept(lines[k]), k == |lines| - 1)
    ensures end < |lines| ==> EndsRegion(Kept(lines[end]), end == |lines| - 1)
    decreases |lines| - i
  {
    if i == |lines| || EndsRegion(Kept(lines[i]), i == |lines| - 1) then i else FindEnd(lines, i + 1)
  }

  // ---- One edit ----

  function NewSection(body: string, heading: string, content: string): string {
    TrimEnd(body) + "\n\n## " + heading + "\n\n" + Trim(content) + "\n"
  }

  function Content(op: Operation, existing: string): string {
    if op.action.Replace? || |existing| == 0 then Trim(op.content) else existing + "\n\n" + Trim(op.content)
  }

  function Around(prefix: string, content: string, suffix: string): string {
    prefix + "\n" + content + "\n" + (if suffix == [] || suffix[0] == '\n' then "" else "\n") + suffix
  }

  function Edited(body: string, op: Operation): string {
    var heading := Trim(op.heading);
    var lines := SplitLines(body);
    var start := FindStart(lines, heading, 0);
    if start == |lines| then NewSection(body, heading, op.content)
    else
      var end := FindEnd(lines, start + 1);
      Around(Pieces(lines, 0, start + 1), Content(op, Trim(Pieces(lines, start + 1, end))), Pieces(lines, end, |lines|))
  }

  function EditedAll(body: string, ops: seq<Operation>): string {
    if ops == [] then body else Edited(EditedAll(body, ops[..|ops| - 1]), ops[|ops| - 1])
  }

  method ApplySectionOperation(body: string, op: Operation) returns (next: string)
    ensures next == Edited(body, op)
  {
    hide Kept, StartsRegion, EndsRegion, Trim, Pieces, SplitLines;
    var heading := Trim(op.heading);
    var lines := SplitLines(body);
    var start := 0;
    while start < |lines| && !StartsRegion(Kept(lines[start]), heading)
      invariant start <= |lines| && FindStart(lines, heading, 0) == FindStart(lines, heading, start)
    {
      start := start + 1;
    }
    if start == |lines| {
      return NewSection(body, heading, op.content);
    }
    var end := |lines|;
    ghost var first := FindEnd(lines, start + 1);
    for index := start + 1 to |lines|
      invariant end == |lines| && FindEnd(lines, index) == first
    {
      if EndsRegion(Kept(lines[index]), index == |lines| - 1) {
        end := index;
        break;
      }
    }
    assert end == first;
    next := Around(Pieces(lines, 0, start + 1), Content(op, Trim(Pieces(lines, start + 1, end))), Pieces(lines, end, |lines|));
  }

  method ApplySectionOperations(body: string, ops: seq<Operation>) returns (next: string)
    ensures next == EditedAll(body, ops)
  {
    hide Edited;
    next := body;
    for i := 0 to |ops|
      invariant next == EditedAll(body, ops[..i])
    {
      assert ops[..i + 1][..i] == ops[..i];
      next := ApplySectionOperation(next, ops[i]);
    }
    assert ops[..|ops|] == ops;
  }

  // ---- The edit on lines ----

  /** No line holds a terminator the edit would stop at. */
  ghost predicate Whole(lines: seq<string>) {
    forall i :: 0 <= i < |lines| ==> !HasTerminator(lines[i])
  }

  lemma {:induction false} KeptIsWhole(line: string)
    requires !HasTerminator(line)
    ensures Kept(line) == line
  {
    if line != [] {
      assert !Terminator(line[|line| - 1]);
      KeptIsWhole(line[..|line| - 1]);
    }
  }

  /** The edit keeps a line exactly when no terminator is in it. */
  lemma {:induction false} KeptIff(line: string)
    ensures Kept(line) == line <==> !HasTerminator(line)
    ensures |Kept(line)| <= |line|
  {
    if line != [] {
      var front, last := line[..|line| - 1], line[|line| - 1];
      KeptIff(front);
      if Terminator(last) {
        assert HasTerminator(line);
      } else if HasTerminator(front) {
        var i :| 0 <= i < |front| && Terminator(front[i]);
        assert Terminator(line[i]);
        SnocDiffers(Kept(front), front, last);
        assert line == front + [last];
      }
    }
  }

  lemma SnocDiffers(a: string, b: string, c: char)
    requires a != b
    ensures a + [c] != b + [c]
  {
    assert (a + [c])[..|a + [c]| - 1] == a;
    assert (b + [c])[..|b + [c]| - 1] == b;
  }

  lemma {:induction false} PiecesToEnd(lines: seq<string>, i: nat)
    requires Whole(lines) && i < |lines|
    ensures Pieces(lines, i, |lines|) == JoinLines(lines[i..])
    decreases |lines| - i
  {
    hide Kept, HasTerminator;
    KeptIsWhole(lines[i]);
    if i + 1 < |lines| {
      PiecesToEnd(lines, i + 1);
      assert lines[i..][1..] == lines[i + 1..];
    } else {
      assert Pieces(lines, i + 1, |lines|) == "";
      assert lines[i..] == [lines[i]];
      assert lines[i] + "" == lines[i];
    }
  }

  lemma {:induction false} PiecesBetween(lines: seq<string>, i: nat, j: nat)
    requires Whole(lines) && i < j < |lines|
    ensures Pieces(lines, i, j) == JoinLines(lines[i..j]) + "\n"
    decreases j - i
  {
    hide Kept, HasTerminator;
    KeptIsWhole(lines[i]);
    if i + 1 < j {
      PiecesBetween(lines, i + 1, j);
      assert lines[i..j][1..] == lines[i + 1..j];
      assert lines[i] + "\n" + (JoinLines(lines[i + 1..j]) + "\n") == lines[i] + "\n" + JoinLines(lines[i + 1..j]) + "\n";
    } else {
      assert Pieces(lines, i + 1, j) == "";
      assert lines[i..j] == [lines[i]];
      assert lines[i] + "\n" + "" == lines[i] + "\n";
    }
  }

  /** The text the edited region holds. */
  function Region(lines: seq<string>, start: nat): string
    requires start < |lines|
  {
    Trim(RegionText(lines[start + 1..FindEnd(lines, start + 1)]))
  }

  lemma ExistingIsRegion(lines: seq<string>, start: nat)
    requires Whole(lines) && start < |lines|
    ensures Trim(Pieces(lines, start + 1, FindEnd(lines, start + 1))) == Region(lines, start)
  {
    hide Kept, EndsRegion, Trim, Whole, Pieces;
    var end := FindEnd(lines, start + 1);
    if start + 1 < end < |lines| {
      PiecesBetween(lines, start + 1, end);
      var text := JoinLines(lines[start + 1..end]);
      NewlineIsBlank();
      TrimWrap("", text, "\n");
      assert "" + text + "\n" == text + "\n";
    } else if start + 1 < end {
      PiecesToEnd(lines, start + 1);
      assert lines[start + 1..end] == lines[start + 1..];
    } else {
      NoPieces(lines, end);
    }
  }

  lemma NewlineIsBlank()
    ensures Blank("\n") && Blank("")
  {
  }

  lemma NoPieces(lines: seq<string>, i: nat)
    requires i <= |lines|
    ensures Pieces(lines, i, i) == ""
  {
  }

  /** The line after the heading when the heading is not the body's last line. */
  function Gap(lines: seq<string>, start: nat): seq<string> {
    if start + 1 < |lines| then [""] else []
  }

  /** An edit of an existing section puts its new text, with blank lines around it, where
      the region was; every other line stays. */
  lemma EditedLines(body: string, op: Operation)
    requires Whole(SplitLines(body)) && FindStart(SplitLines(body), Trim(op.heading), 0) < |SplitLines(body)|
    ensures var lines := SplitLines(body);
            var start := FindStart(lines, Trim(op.heading), 0);
            (SplitLines(Edited(body, op))
               == lines[..start + 1] + Gap(lines, start) + SplitLines(Content(op, Region(lines, start))) + [""] + lines[FindEnd(lines, start + 1)..])
  {
    hide *;
    var lines := SplitLines(body);
    var start := FindStart(lines, Trim(op.heading), 0);
    EditedIs(body, op, start);
    SplitAreLines(body);
    ExistingIsRegion(lines, start);
    EditedLinesAt(lines, start, FindEnd(lines, start + 1), Content(op, Region(lines, start)));
  }

  lemma EditedIs(body: string, op: Operation, start: nat)
    requires start == FindStart(SplitLines(body), Trim(op.heading), 0) && start < |SplitLines(body)|
    ensures var lines := SplitLines(body);
            var end := FindEnd(lines, start + 1);
            (Edited(body, op)
               == Around(Pieces(lines, 0, start + 1), Content(op, Trim(Pieces(lines, start + 1, end))), Pieces(lines, end, |lines|)))
  {
    hide Pieces, SplitLines, Content, Around, FindStart, FindEnd, Trim, NewSection;
  }

  lemma EditedLinesAt(lines: seq<string>, start: nat, end: nat, content: string)
    requires Whole(lines) && AreLines(lines) && start < end <= |lines|
    requires end < |lines| ==> EndsRegion(Kept(lines[end]), end == |lines| - 1)
    ensures SplitLines(Around(Pieces(lines, 0, start + 1), content, Pieces(lines, end, |lines|)))
         == lines[..start + 1] + Gap(lines, start) + SplitLines(content) + [""] + lines[end..]
  {
    hide Kept, EndsRegion, Pieces, SplitLines, Around, Whole, AreLines;
    PrefixLines(lines, start + 1);
    SuffixLines(lines, end);
    AroundLines(Pieces(lines, 0, start + 1), content, Pieces(lines, end, |lines|));
    if start + 1 == |lines| {
      assert lines[..start + 1] + [] == lines;
    }
  }

  lemma PrefixLines(lines: seq<string>, k: nat)
    requires Whole(lines) && AreLines(lines) && 0 < k <= |lines|
    ensures SplitLines(Pieces(lines, 0, k)) == if k < |lines| then lines[..k] + [""] else lines
  {
    hide Kept, HasTerminator, OneLine;
    if k < |lines| {
      PiecesBetween(lines, 0, k);
      assert lines[0..k] == lines[..k];
      SplitJoin(lines[..k]);
      SplitConcat(JoinLines(lines[..k]), "");
      assert JoinLines(lines[..k]) + "\n" + "" == JoinLines(lines[..k]) + "\n";
    } else {
      PiecesToEnd(lines, 0);
      assert lines[0..] == lines;
      SplitJoin(lines);
    }
  }

  /** The rest of the body starts with a heading-like line, if there is any. */
  lemma SuffixLines(lines: seq<string>, end: nat)
    requires Whole(lines) && AreLines(lines) && end <= |lines|
    requires end < |lines| ==> EndsRegion(Kept(lines[end]), end == |lines| - 1)
    ensures end == |lines| ==> Pieces(lines, end, |lines|) == ""
    ensures end < |lines| ==> Pieces(lines, end, |lines|) != "" && Pieces(lines, end, |lines|)[0] == '#' && SplitLines(Pieces(lines, end, |lines|)) == lines[end..]
  {
    hide OneLine, SplitLines, HasTerminator;
    if end < |lines| {
      KeptIsWhole(lines[end]);
      assert lines[end] != [] && lines[end][0] == '#';
      PiecesToEnd(lines, end);
      SplitJoin(lines[end..]);
      assert JoinLines(lines[end..]) != [] && JoinLines(lines[end..])[0] == lines[end][0];
    }
  }

  lemma AroundLines(prefix: string, content: string, suffix: string)
    requires suffix != [] ==> suffix[0] == '#'
    ensures SplitLines(Around(prefix, content, suffix))
         == SplitLines(prefix) + SplitLines(content) + [""] + if suffix == [] then [] else SplitLines(suffix)
  {
    SplitConcat(prefix, content);
    SplitConcat(prefix + "\n" + content, "");
    assert SplitLines("") == [""];
    var head := prefix + "\n" + content + "\n";
    assert prefix + "\n" + content + "\n" + "" == head;
    if suffix == [] {
      assert Around(prefix, content, suffix) == head;
    } else {
      assert Around(prefix, content, suffix) == head + "\n" + suffix;
      SplitConcat(head, suffix);
    }
  }

  // ---- The edited section and the parser ----

  /** On whole lines the edit and the parser see the same titles. */
  lemma SameTitles(line: string, heading: string)
    requires !HasTerminator(line) && heading != ""
    ensures StartsRegion(Kept(line), heading) <==> Titled(line, heading)
  {
    KeptIsWhole(line);
    if Marker(line) {
      var rest := AfterHashes(line);
      TrimStartIs(rest);
      TailHasNoTerminator(line, Hashes(line));
      var t := TrimStart(rest);
      TailHasNoTerminator(rest, |rest| - |t|);
      hide IsSpace, HasTerminator;
      assert t == [] ==> TrimEnd(t) == [];
    }
  }

  lemma TailHasNoTerminator(s: string, k: nat)
    requires !HasTerminator(s) && k <= |s|
    ensures !HasTerminator(s[k..])
  {
    forall i | 0 <= i < |s[k..]|
      ensures !Terminator(s[k..][i])
    {
      assert !Terminator(s[k + i]);
    }
  }

  /** No heading is inside an edited region. */
  lemma RegionIsHeadingFree(lines: seq<string>, start: nat)
    requires Whole(lines) && start < |lines|
    ensures HeadingFree(lines[start + 1..FindEnd(lines, start + 1)])
  {
    hide Kept, HasTerminator, Marker, Hashes;
    var end := FindEnd(lines, start + 1);
    forall k | start + 1 <= k < end
      ensures !IsHeading(lines[k])
    {
      KeptIsWhole(lines[k]);
    }
  }

  /** The edit ends the section where the parser does: no line of two to six bare hashes
      (or with nothing but one whitespace after them) lies before the next heading. */
  predicate EndsWithSection(lines: seq<string>, start: nat)
    requires start < |lines|
  {
    var end := FindEnd(lines, start + 1);
    end == |lines| || IsHeading(lines[end])
  }

  /** Editing a section with heading-free text makes the parser return exactly that text
      for it, if and only if the edited region ends where the section does. */
  lemma EditedSection(body: string, op: Operation, title: string, start: nat, content: string)
    requires Whole(SplitLines(body)) && title == Trim(op.heading) && title != ""
    requires start == FindStart(SplitLines(body), title, 0) && start < |SplitLines(body)|
    requires content == Content(op, Region(SplitLines(body), start)) && HeadingFree(SplitLines(content))
    requires NoneTitled(SplitLines(body)[start + 1..], title)
    ensures title in Sections(SplitLines(Edited(body, op)))
    ensures Sections(SplitLines(Edited(body, op)))[title] == Trim(content) <==> EndsWithSection(SplitLines(body), start)
  {
    hide Kept, StartsRegion, EndsRegion, Trim, Pieces, SplitLines, Content, Region, Edited, FindStart, FindEnd, Whole, HeadingTitle, HasTerminator, Blank, Sections, RegionText, NoneTitled, Titled;
    var lines := SplitLines(body);
    var end := FindEnd(lines, start + 1);
    EditedLines(body, op);
    StartIsTitled(lines, start, title);
    EndIsMarked(lines, end);
    NoneTitledBack(lines, start + 1, end, title);
    MiddleIsHeadingFree(lines, start, content);
    var back := lines[end..];
    SectionWithMiddle(lines[..start + 1], Gap(lines, start) + SplitLines(content) + [""], back, start, title);
    assert lines[..start + 1] + (Gap(lines, start) + SplitLines(content) + [""]) + back == SplitLines(Edited(body, op));
    MiddleText(lines, start, content, back[..Leading(back)]);
  }

  lemma StartIsTitled(lines: seq<string>, start: nat, title: string)
    requires Whole(lines) && start < |lines| && title != ""
    ensures StartsRegion(Kept(lines[start]), title) <==> Titled(lines[start], title)
  {
    hide StartsRegion, Titled, Kept, HasTerminator;
    SameTitles(lines[start], title);
  }

  lemma NoneTitledBack(lines: seq<string>, i: nat, end: nat, title: string)
    requires i <= end <= |lines| && NoneTitled(lines[i..], title)
    ensures NoneTitled(lines[end..], title)
  {
    hide Titled;
    assert forall k :: 0 <= k < |lines| - end ==> lines[end..][k] == lines[i..][end - i + k];
  }

  lemma MiddleIsHeadingFree(lines: seq<string>, start: nat, content: string)
    requires HeadingFree(SplitLines(content))
    ensures HeadingFree(Gap(lines, start) + SplitLines(content) + [""])
  {
    EmptyIsNoHeading();
    hide IsHeading, SplitLines;
  }

  /** What the parser finds for a heading followed by heading-free lines. */
  lemma SectionWithMiddle(front: seq<string>, middle: seq<string>, back: seq<string>, start: nat, title: string)
    requires |front| == start + 1 && Titled(front[start], title) && title != "" && HeadingFree(middle) && NoneTitled(back, title)
    ensures title in Sections(front + middle + back)
    ensures Sections(front + middle + back)[title] == Trim(RegionText(middle + back[..Leading(back)]))
  {
    hide HeadingTitle, Trim, RegionText, Sections;
    var all := front + middle + back;
    assert all[start + 1..] == middle + back;
    SectionIs(all, start, title);
    LeadingSkips(middle, back);
    assert (middle + back)[..|middle| + Leading(back)] == middle + back[..Leading(back)];
  }

  lemma EmptyIsNoHeading()
    ensures !IsHeading("")
  {
  }

  lemma EndIsMarked(lines: seq<string>, end: nat)
    requires Whole(lines) && end <= |lines| && (end < |lines| ==> EndsRegion(Kept(lines[end]), end == |lines| - 1))
    ensures end < |lines| ==> !Blank(lines[end])
  {
    hide HasTerminator;
    if end < |lines| {
      KeptIsWhole(lines[end]);
      assert lines[end][0] == '#';
    }
  }

  lemma {:induction false} LeadingSkips(a: seq<string>, b: seq<string>)
    requires HeadingFree(a)
    ensures Leading(a + b) == |a| + Leading(b)
    decreases |a|
  {
    hide HeadingTitle, IsHeading;
    if a == [] {
      assert a + b == b;
    } else {
      assert (a + b)[1..] == a[1..] + b;
      assert forall i :: 0 <= i < |a| - 1 ==> a[1..][i] == a[i + 1];
      assert !IsHeading(a[0]) && (a + b)[0] == a[0];
      LeadingSkips(a[1..], b);
    }
  }

  /** The new section's text is the content, and more when lines of the old section are
      left behind it. */
  lemma MiddleText(lines: seq<string>, start: nat, content: string, left: seq<string>)
    requires left != [] ==> !Blank(left[0])
    ensures Trim(RegionText(Gap(lines, start) + SplitLines(content) + [""] + left)) == Trim(content) <==> left == []
  {
    hide Blank, Trim, SplitLines, IsSpace;
    var gap := Gap(lines, start);
    var middle := gap + SplitLines(content) + [""];
    JoinSplit(content);
    JoinConcat(SplitLines(content), [""]);
    var x := if gap == [] then "" else "\n";
    if gap == [] {
      assert middle == SplitLines(content) + [""];
    } else {
      JoinConcat(gap, SplitLines(content) + [""]);
      assert middle == gap + (SplitLines(content) + [""]);
    }
    assert content + "\n" + "" == content + "\n";
    assert JoinLines(middle) == x + content + "\n";
    NewlineIsBlank();
    TrimWrap(x, content, "\n");
    if left == [] {
      assert middle + left == middle;
    } else {
      JoinConcat(middle, left);
      LeftOverInk(JoinLines(middle), content, left);
    }
  }

  lemma LeftOverInk(text: string, content: string, left: seq<string>)
    requires Trim(text) == Trim(content) && left != [] && !Blank(left[0])
    ensures Trim(text + "\n" + JoinLines(left)) != Trim(content)
  {
    hide Blank, Trim, IsSpace;
    var all := text + "\n" + JoinLines(left);
    InkOfTrim(all);
    InkOfTrim(text);
    InkConcat(text + "\n", JoinLines(left));
    InkConcat(text, "\n");
    InkOfBlank(left[0]);
    if |left| > 1 {
      InkConcat(left[0], "\n" + JoinLines(left[1..]));
      assert JoinLines(left) == left[0] + ("\n" + JoinLines(left[1..]));
    }
  }

  /** An edit with heading-free text leaves every other section of the parser as it was,
      wherever the edited region ends. */
  lemma EditKeepsOtherSections(body: string, op: Operation, title: string, start: nat, content: string, other: string)
    requires Whole(SplitLines(body)) && title == Trim(op.heading) && title != "" && other != title
    requires start == FindStart(SplitLines(body), title, 0) && start < |SplitLines(body)|
    requires content == Content(op, Region(SplitLines(body), start)) && HeadingFree(SplitLines(content))
    ensures (other in Sections(SplitLines(Edited(body, op)))) == (other in Sections(SplitLines(body)))
    ensures other in Sections(SplitLines(body)) ==> Sections(SplitLines(Edited(body, op)))[other] == Sections(SplitLines(body))[other]
  {
    hide Kept, StartsRegion, EndsRegion, Trim, Pieces, SplitLines, Content, Region, Edited, FindStart, FindEnd, Whole, HeadingTitle, HasTerminator, Sections, Titled, HeadingFree;
    var lines := SplitLines(body);
    var end := FindEnd(lines, start + 1);
    EditedLines(body, op);
    StartIsTitled(lines, start, title);
    RegionIsHeadingFree(lines, start);
    MiddleIsHeadingFree(lines, start, content);
    var front, was, back := lines[..start + 1], lines[start + 1..end], lines[end..];
    assert lines == front + was + back;
    assert SplitLines(Edited(body, op)) == front + (Gap(lines, start) + SplitLines(content) + [""]) + back;
    OtherSectionsStay(front, Gap(lines, start) + SplitLines(content) + [""], was, back, start, title, other);
  }

  // ---- Replace and append ----

  /** Replacing a section with distinct title: the parser then returns the trimmed content
      exactly when the edited region ends where the section does. */
  lemma ReplacedSection(body: string, op: Operation, title: string, start: nat)
    requires Whole(SplitLines(body)) && op.action.Replace? && title == Trim(op.heading) && title != ""
    requires start == FindStart(SplitLines(body), title, 0) && start < |SplitLines(body)|
    requires NoneTitled(SplitLines(body)[start + 1..], title) && HeadingFree(SplitLines(Trim(op.content)))
    ensures title in Sections(SplitLines(Edited(body, op)))
    ensures Sections(SplitLines(Edited(body, op)))[title] == Trim(op.content) <==> EndsWithSection(SplitLines(body), start)
  {
    hide EndsWithSection, Edited, FindStart, Region, Whole, HeadingFree;
    EditedSection(body, op, title, start, Trim(op.content));
    TrimIsTrimmed(op.content);
  }

  /** Appending to a section with distinct title and non-empty text: the parser then
      returns the old text and the trimmed content with a blank line between, when the
      edited region ends where the section does and no line of that text is a heading. */
  lemma AppendedSection(body: string, op: Operation, title: string, start: nat)
    requires Whole(SplitLines(body)) && op.action.Append? && title == Trim(op.heading) && title != ""
    requires start == FindStart(SplitLines(body), title, 0) && start < |SplitLines(body)|
    requires NoneTitled(SplitLines(body)[start + 1..], title) && EndsWithSection(SplitLines(body), start)
    requires title in Sections(SplitLines(body)) && Sections(SplitLines(body))[title] != ""
    requires HeadingFree(SplitLines(Sections(SplitLines(body))[title] + "\n\n" + Trim(op.content)))
    ensures title in Sections(SplitLines(Edited(body, op)))
    ensures Sections(SplitLines(Edited(body, op)))[title] == Trim(Sections(SplitLines(body))[title] + "\n\n" + Trim(op.content))
  {
    var lines := SplitLines(body);
    RegionIsSection(lines, title, start);
    hide EndsWithSection, Edited, FindStart, Region, Whole, HeadingFree, Sections;
    EditedSection(body, op, title, start, Sections(lines)[title] + "\n\n" + Trim(op.content));
  }

  lemma RegionIsSection(lines: seq<string>, title: string, start: nat)
    requires Whole(lines) && title != "" && start < |lines| && StartsRegion(Kept(lines[start]), title)
    requires NoneTitled(lines[start + 1..], title) && EndsWithSection(lines, start)
    ensures title in Sections(lines) && Sections(lines)[title] == Region(lines, start)
  {
    hide Kept, StartsRegion, EndsRegion, FindEnd, Whole, HeadingTitle, Trim, HasTerminator, RegionText, Sections, Titled;
    var end := FindEnd(lines, start + 1);
    StartIsTitled(lines, start, title);
    RegionIsHeadingFree(lines, start);
    var was, back := lines[start + 1..end], lines[end..];
    NoneTitledBack(lines, start + 1, end, title);
    assert lines == lines[..start + 1] + was + back;
    assert back != [] ==> back[0] == lines[end];
    SectionWithMiddle(lines[..start + 1], was, back, start, title);
    assert was + back[..0] == was;
  }
}
