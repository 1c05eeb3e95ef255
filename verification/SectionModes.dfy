/** Which lines of a body last: one pass over the lines tells, for every line, whether some
    validated patch can take it out of the Evidence sections. */
module SectionModes {
  import opened Text
  import opened MarkdownLines
  import opened SectionParser
  import opened SectionEdits
  import opened SectionAdds
  import opened SectionSafety

  // ---- The pass ----

  /** What edits can do to the lines that follow. Always: nothing, since an earlier heading
      has the section's title. Open: nothing, up to the line that ends the edited region.
      Fresh: only blank lines since the first heading with its title. Never: not in an
      Evidence section, or behind a line that some edit moves out of one. */
  datatype Mode = Never | Fresh | Open | Always

  /** The parser's section, the mode, and the titles so far as the edit sees them. */
  datatype State = State(title: string, mode: Mode, seen: set<string>)

  function Start(): State {
    State("", Never, {})
  }

  function Entered(title: string, seen: set<string>): Mode {
    if !IsEvidence(title) then Never else if title in seen then Always else Fresh
  }

  /** Trimming the region's text can make a heading of its first inked line. */
  function Continued(mode: Mode, kept: string): Mode {
    match mode
    case Fresh => if Trim(kept) == "" then Fresh else if Marked(kept) then Never else Open
    case Open => if EndsRegion(kept, false) then Never else Open
    case _ => mode
  }

  function After(st: State, line: string): State {
    var kept := Kept(line);
    var title := if IsHeading(line) then HeadingTitle(line).value else st.title;
    if IsHeading(kept) then State(title, Entered(HeadingTitle(kept).value, st.seen), st.seen + {HeadingTitle(kept).value})
    else State(title, Continued(st.mode, kept), st.seen)
  }

  function AfterAll(st: State, lines: seq<string>): State
    decreases |lines|
  {
    if lines == [] then st else AfterAll(After(st, lines[0]), lines[1..])
  }

  /** An inked Evidence line that is cut to the same ink, that the cut does not make a
      heading, and that no edit moves. */
  predicate Lasts(st: State, line: string) {
    var kept := Kept(line);
    && IsEvidence(st.title) && !IsHeading(line) && Trim(line) != ""
    && !IsHeading(kept) && Trim(kept) == Trim(line) && (Continued(st.mode, kept).Open? || Continued(st.mode, kept).Always?)
  }

  /** The lines that last, trimmed. */
  function Lasting(st: State, lines: seq<string>): multiset<string>
    decreases |lines|
  {
    if lines == [] then multiset{}
    else (if Lasts(st, lines[0]) then multiset{Trim(lines[0])} else multiset{}) + Lasting(After(st, lines[0]), lines[1..])
  }

  /** The titled headings that no cut changes. */
  function Firm(lines: seq<string>): multiset<string> {
    if lines == [] then multiset{}
    else (if IsTitled(lines[0]) && !HasTerminator(lines[0]) then multiset{Trim(lines[0])} else multiset{}) + Firm(lines[1..])
  }

  /** A heading holds no line terminator, unless it has no title, and an inked Evidence
      line lasts. */
  predicate LineSafe(st: State, line: string) {
    if IsHeading(line) then IsTitled(line) ==> !HasTerminator(line)
    else IsEvidence(st.title) && Trim(line) != "" ==> Lasts(st, line)
  }

  predicate BodySafe(st: State, lines: seq<string>)
    decreases |lines|
  {
    lines == [] || (LineSafe(st, lines[0]) && BodySafe(After(st, lines[0]), lines[1..]))
  }

  // ---- What the pass adds up ----

  lemma {:induction false} LastingConcat(st: State, a: seq<string>, b: seq<string>)
    ensures Lasting(st, a + b) == Lasting(st, a) + Lasting(AfterAll(st, a), b)
    ensures AfterAll(st, a + b) == AfterAll(AfterAll(st, a), b)
    decreases |a|
  {
    hide Lasts, After, Trim;
    if a == [] {
      assert a + b == b;
    } else {
      assert (a + b)[1..] == a[1..] + b;
      LastingConcat(After(st, a[0]), a[1..], b);
    }
  }

  lemma {:induction false} FirmConcat(a: seq<string>, b: seq<string>)
    ensures Firm(a + b) == Firm(a) + Firm(b)
  {
    hide IsTitled, HasTerminator, Trim;
    if a == [] {
      assert a + b == b;
    } else {
      assert (a + b)[1..] == a[1..] + b;
      FirmConcat(a[1..], b);
    }
  }

  lemma LastingOne(st: State, line: string)
    ensures Lasting(st, [line]) == if Lasts(st, line) then multiset{Trim(line)} else multiset{}
    ensures AfterAll(st, [line]) == After(st, line)
  {
    hide Lasts, After, Trim;
    assert [line][1..] == [];
  }

  lemma FirmOne(line: string)
    ensures Firm([line]) == if IsTitled(line) && !HasTerminator(line) then multiset{Trim(line)} else multiset{}
  {
    hide IsTitled, HasTerminator, Trim;
    assert [line][1..] == [];
  }

  lemma AfterTitle(st: State, line: string)
    ensures After(st, line).title == if IsHeading(line) then HeadingTitle(line).value else st.title
  {
    hide IsHeading, HeadingTitle, Kept, Entered, Continued;
  }

  /** What lasts is evidence. */
  lemma {:induction false} LastingIsEvidence(st: State, lines: seq<string>)
    ensures Lasting(st, lines) <= Evidence(st.title, lines)
    decreases |lines|
  {
    hide IsEvidence, IsHeading, HeadingTitle, Trim, Kept, Continued, After;
    if lines != [] {
      AfterTitle(st, lines[0]);
      LastingIsEvidence(After(st, lines[0]), lines[1..]);
    }
  }

  lemma {:induction false} FirmIsHeadings(lines: seq<string>)
    ensures Firm(lines) <= Headings(lines)
  {
    hide IsTitled, HasTerminator, Trim;
    if lines != [] {
      FirmIsHeadings(lines[1..]);
    }
  }

  /** In a safe body all headings are firm, and all inked Evidence lines last. */
  lemma {:induction false} SafeLasts(st: State, lines: seq<string>)
    requires BodySafe(st, lines)
    ensures Headings(lines) == Firm(lines) && Evidence(st.title, lines) == Lasting(st, lines)
    decreases |lines|
  {
    hide IsEvidence, HeadingTitle, Trim, Kept, Continued, After, HasTerminator;
    if lines != [] {
      AfterTitle(st, lines[0]);
      SafeLasts(After(st, lines[0]), lines[1..]);
    }
  }

  // ---- Whole lines ----

  lemma WholeConcat(a: seq<string>, b: seq<string>)
    ensures Whole(a + b) <==> Whole(a) && Whole(b)
  {
    hide HasTerminator;
    assert forall i :: 0 <= i < |a| ==> a[i] == (a + b)[i];
    assert forall i :: 0 <= i < |b| ==> b[i] == (a + b)[|a| + i];
  }

  lemma WholeTail(lines: seq<string>)
    requires Whole(lines) && lines != []
    ensures !HasTerminator(lines[0]) && Kept(lines[0]) == lines[0] && Whole(lines[1..])
  {
    hide HasTerminator, Kept;
    KeptIsWhole(lines[0]);
    assert lines == [lines[0]] + lines[1..];
    WholeConcat([lines[0]], lines[1..]);
  }

  // ---- Better states ----

  function Rank(mode: Mode): nat {
    match mode case Never => 0 case Fresh => 1 case Open => 2 case Always => 3
  }

  /** Whatever lasts from the first state lasts from the second. */
  ghost predicate Below(a: State, b: State) {
    && (!a.mode.Never? && IsEvidence(a.title) ==> IsEvidence(b.title))
    && Rank(a.mode) <= Rank(b.mode) && a.seen <= b.seen
  }

  lemma ContinuedMonotone(a: Mode, b: Mode, kept: string)
    requires Rank(a) <= Rank(b)
    ensures Rank(Continued(a, kept)) <= Rank(Continued(b, kept))
  {
    hide EndsRegion, Marked, Trim;
    if EndsRegion(kept, false) {
      EndsIsMarked(kept, false);
      EmptyFacts();
      MarkedByInk(kept, "");
    }
  }

  lemma BetterAfter(a: State, b: State, line: string)
    requires Below(a, b) && !HasTerminator(line)
    ensures Below(After(a, line), After(b, line)) && (Lasts(a, line) ==> Lasts(b, line))
  {
    hide IsEvidence, HeadingTitle, Trim, Kept, Continued, HasTerminator;
    KeptIsWhole(line);
    ContinuedMonotone(a.mode, b.mode, line);
    NeverStays(a.mode, line);
  }

  lemma NeverStays(mode: Mode, kept: string)
    ensures mode.Never? ==> Continued(mode, kept).Never?
  {
  }

  lemma {:induction false} BetterLasting(a: State, b: State, lines: seq<string>)
    requires Below(a, b) && Whole(lines)
    ensures Lasting(a, lines) <= Lasting(b, lines)
    decreases |lines|
  {
    hide Below, Lasts, After, Whole, HasTerminator, Trim;
    if lines != [] {
      WholeTail(lines);
      BetterAfter(a, b, lines[0]);
      BetterLasting(After(a, lines[0]), After(b, lines[0]), lines[1..]);
    }
  }

  // ---- Cutting lines ----

  function Cut(lines: seq<string>): (cut: seq<string>)
    ensures |cut| == |lines|
  {
    seq(|lines|, i requires 0 <= i < |lines| => Kept(lines[i]))
  }

  lemma {:induction false} KeptHasNoTerminator(line: string)
    ensures !HasTerminator(Kept(line)) && (OneLine(line) ==> OneLine(Kept(line)))
  {
    if line != [] && !Terminator(line[|line| - 1]) {
      KeptHasNoTerminator(line[..|line| - 1]);
    }
  }

  lemma CutIsWhole(lines: seq<string>)
    ensures Whole(Cut(lines)) && (AreLines(lines) ==> AreLines(Cut(lines)))
  {
    hide Kept, HasTerminator, OneLine;
    forall i | 0 <= i < |lines|
      ensures !HasTerminator(Cut(lines)[i]) && (AreLines(lines) ==> OneLine(Cut(lines)[i]))
    {
      KeptHasNoTerminator(lines[i]);
    }
  }

  /** The cut's parser is in an Evidence section whenever something can last. */
  ghost predicate CutState(st: State, cut: State) {
    st.mode == cut.mode && st.seen == cut.seen && (!cut.mode.Never? ==> IsEvidence(cut.title))
  }

  lemma CutAfter(st: State, cut: State, line: string)
    requires CutState(st, cut)
    ensures CutState(After(st, line), After(cut, Kept(line))) && (Lasts(st, line) ==> Lasts(cut, Kept(line)))
  {
    hide IsEvidence, HeadingTitle, Trim, Kept, Continued, HasTerminator;
    KeptHasNoTerminator(line);
    KeptIsWhole(Kept(line));
    NeverStays(cut.mode, Kept(line));
  }

  lemma {:induction false} CutKeepsLasting(st: State, cut: State, lines: seq<string>)
    requires CutState(st, cut)
    ensures Lasting(st, lines) <= Lasting(cut, Cut(lines))
    decreases |lines|
  {
    hide CutState, Lasts, After, Kept, Trim;
    if lines != [] {
      CutAfter(st, cut, lines[0]);
      CutKeepsLasting(After(st, lines[0]), After(cut, Kept(lines[0])), lines[1..]);
      assert Cut(lines)[1..] == Cut(lines[1..]);
      LastsSame(st, lines[0]);
    }
  }

  lemma LastsSame(st: State, line: string)
    ensures Lasts(st, line) ==> Trim(Kept(line)) == Trim(line)
  {
    hide Trim, Kept;
  }

  lemma {:induction false} CutKeepsFirm(lines: seq<string>)
    ensures Firm(lines) <= Firm(Cut(lines))
  {
    hide IsTitled, HasTerminator, Kept, Trim;
    if lines != [] {
      CutKeepsFirm(lines[1..]);
      assert Cut(lines)[1..] == Cut(lines[1..]);
      if !HasTerminator(lines[0]) {
        KeptIsWhole(lines[0]);
      }
    }
  }

  // ---- Whitespace at the ends of a text ----

  lemma KeptSnoc(line: string, c: char)
    ensures Kept(line + [c]) == if Terminator(c) then "" else Kept(line) + [c]
  {
    assert (line + [c])[..|line + [c]| - 1] == line;
  }

  /** More whitespace, not a terminator, leaves a heading a heading. */
  lemma HeadingSnoc(line: string, c: char)
    requires IsSpace(c) && !Terminator(c) && IsHeading(line)
    ensures IsHeading(line + [c])
  {
    HashesSnoc(line, c);
    var rest := AfterHashes(line);
    assert AfterHashes(line + [c]) == rest + [c];
    TrimStartSnoc(rest, c);
    hide IsSpace, TrimStart;
    TerminatorSnoc(TrimStart(rest), c);
  }

  lemma TerminatorSnoc(s: string, c: char)
    ensures HasTerminator(s + [c]) <==> HasTerminator(s) || Terminator(c)
  {
    assert (s + [c])[|s|] == c;
    assert forall i :: 0 <= i < |s| ==> s[i] == (s + [c])[i];
  }

  lemma EndsSnoc(line: string, c: char)
    requires IsSpace(c) && EndsRegion(line, false)
    ensures EndsRegion(line + [c], false)
  {
    HashesSnoc(line, c);
    assert AfterHashes(line + [c]) == AfterHashes(line) + [c];
    hide IsSpace;
  }

  lemma ContinuedSnoc(mode: Mode, line: string, c: char)
    requires IsSpace(c) && (Continued(mode, line + [c]).Open? || Continued(mode, line + [c]).Always?)
    ensures Continued(mode, line).Open? || Continued(mode, line).Always?
  {
    hide IsSpace, Trim, Marked, EndsRegion;
    TrimLast(line, c);
    MarkedByInk(line, line + [c]);
    if mode.Open? && EndsRegion(line, false) {
      EndsSnoc(line, c);
    }
  }

  lemma LastsSnoc(st: State, line: string, c: char)
    requires IsSpace(c) && Lasts(st, line + [c])
    ensures Lasts(st, line)
  {
    hide IsSpace, Trim, IsEvidence, HeadingTitle, Kept, Continued, Terminator;
    KeptSnoc(line, c);
    TrimLast(line, c);
    EmptyFacts();
    if !Terminator(c) {
      TrimLast(Kept(line), c);
      ContinuedSnoc(st.mode, Kept(line), c);
      if IsHeading(line) {
        HeadingSnoc(line, c);
      }
      if IsHeading(Kept(line)) {
        HeadingSnoc(Kept(line), c);
      }
    }
  }

  /** One whitespace character less at the end of a text. */
  lemma StepEndLasting(st: State, lines: seq<string>, c: char)
    requires lines != [] && IsSpace(c)
    ensures Lasting(st, Appended(lines, c)) <= Lasting(st, lines) && Firm(Appended(lines, c)) <= Firm(lines)
  {
    hide IsSpace, Trim, Lasts, After, IsTitled, HasTerminator, Lasting, Firm, AfterAll;
    EmptyFacts();
    EmptyDoesNotLast(AfterAll(st, lines));
    var front, last := lines[..|lines| - 1], lines[|lines| - 1];
    var more := last + [c];
    assert lines == front + [last];
    if c == '\n' {
      LastingConcat(st, lines, [""]);
      FirmConcat(lines, [""]);
      FirmOne("");
    } else {
      var at := AfterAll(st, front);
      LastingConcat(st, front, [last]);
      LastingConcat(st, front, [more]);
      FirmConcat(front, [last]);
      FirmConcat(front, [more]);
      FirmOne(last);
      FirmOne(more);
      LastingOne(at, last);
      LastingOne(at, more);
      TrimLast(last, c);
      if Lasts(at, more) {
        LastsSnoc(at, last, c);
      }
      if IsTitled(more) && !HasTerminator(more) {
        TitledSnoc(last, c);
      }
    }
  }

  lemma EmptyDoesNotLast(st: State)
    ensures Lasting(st, [""]) == multiset{} && After(st, "").title == st.title && After(st, "").seen == st.seen
    ensures st.mode.Fresh? ==> After(st, "") == st
  {
    EmptyFacts();
    hide Trim, IsEvidence, HeadingTitle, Kept, EndsRegion;
    LastingOne(st, "");
  }

  lemma TitledSnoc(line: string, c: char)
    requires IsSpace(c) && IsTitled(line + [c]) && !HasTerminator(line + [c])
    ensures IsTitled(line) && !HasTerminator(line)
  {
    hide IsSpace, HeadingTitle, HasTerminator;
    TitleSnoc(line, c);
  }

  lemma {:induction false} TrimEndKeepsLasting(st: State, x: string)
    ensures Lasting(st, SplitLines(x)) <= Lasting(st, SplitLines(TrimEnd(x))) && Firm(SplitLines(x)) <= Firm(SplitLines(TrimEnd(x)))
    decreases |x|
  {
    hide IsSpace, SplitLines, Lasting, Firm;
    if x != [] && IsSpace(x[|x| - 1]) {
      var y := x[..|x| - 1];
      assert x == y + [x[|x| - 1]];
      SplitSnoc(y, x[|x| - 1]);
      TrimEndKeepsLasting(st, y);
      StepEndLasting(st, SplitLines(y), x[|x| - 1]);
    }
  }

  /** One whitespace character less in front of the text of a fresh section. */
  lemma StepStartLasting(st: State, c: char, lines: seq<string>)
    requires lines != [] && IsSpace(c) && st.mode.Fresh? && Whole(Prepended(c, lines))
    ensures Whole(lines) && Lasting(st, Prepended(c, lines)) <= Lasting(st, lines)
  {
    hide IsSpace, Trim, Lasts, After, HasTerminator, Lasting, AfterAll;
    var more := Prepended(c, lines);
    if c == '\n' {
      EmptyDoesNotLast(st);
      LastingOne(st, "");
      LastingConcat(st, [""], lines);
      WholeConcat([""], lines);
    } else {
      WholeTail(more);
      TerminatorTail(c, lines[0]);
      assert more[1..] == lines[1..] && more == [more[0]] + lines[1..] && lines == [lines[0]] + lines[1..];
      WholeConcat([lines[0]], lines[1..]);
      LastingConcat(st, [more[0]], lines[1..]);
      LastingConcat(st, [lines[0]], lines[1..]);
      LastingOne(st, more[0]);
      LastingOne(st, lines[0]);
      TrimFirst(c, lines[0]);
      FreshFirst(st, c, lines[0]);
      BetterLasting(After(st, more[0]), After(st, lines[0]), lines[1..]);
    }
  }

  lemma TerminatorTail(c: char, line: string)
    requires !HasTerminator([c] + line)
    ensures !HasTerminator(line)
  {
    TailHasNoTerminator([c] + line, 1);
    assert ([c] + line)[1..] == line;
  }

  lemma FreshFirst(st: State, c: char, line: string)
    requires IsSpace(c) && st.mode.Fresh? && !HasTerminator([c] + line)
    ensures Below(After(st, [c] + line), After(st, line)) && (Lasts(st, [c] + line) ==> Lasts(st, line))
  {
    var more := [c] + line;
    assert Hashes(more) == 0;
    TerminatorTail(c, line);
    KeptIsWhole(more);
    KeptIsWhole(line);
    TrimFirst(c, line);
    MarkedByInk(more, line);
    hide IsSpace, Trim, IsEvidence, HasTerminator, Kept, Hashes, AfterHashes, Marked, TitleOf;
    assert !IsHeading(more);
    if IsHeading(line) {
      EndsIfHeading(line, false);
    }
  }

  lemma {:induction false} TrimStartKeepsLasting(st: State, x: string)
    requires st.mode.Fresh? && Whole(SplitLines(x))
    ensures Lasting(st, SplitLines(x)) <= Lasting(st, SplitLines(TrimStart(x)))
  {
    hide IsSpace, Lasting, Whole;
    if x != [] && IsSpace(x[0]) {
      StepStartLasting(st, x[0], SplitLines(x[1..]));
      TrimStartKeepsLasting(st, x[1..]);
    }
  }

  lemma TrimKeepsLasting(st: State, x: string)
    requires st.mode.Fresh? && Whole(SplitLines(x))
    ensures Lasting(st, SplitLines(x)) <= Lasting(st, SplitLines(Trim(x)))
  {
    hide Lasting, Whole, SplitLines, TrimStart, TrimEnd;
    TrimStartKeepsLasting(st, x);
    TrimEndKeepsLasting(st, TrimStart(x));
  }
}
