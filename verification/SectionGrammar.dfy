/** The regular expressions that the section helpers match lines with, read as what they
    match, and the lines that the parser and the edits tell apart by them. */
module SectionGrammar {
  import opened Text
  import opened MarkdownLines
  import opened SectionParser
  import opened SectionEdits
  import opened SectionSafety

  // ---- Character classes ----

  /** The characters of \s: WhiteSpace and LineTerminator of ECMAScript. */
  const SPACES: set<int> :=
    {9, 10, 11, 12, 13, 32, 160, 5760, 8192, 8193, 8194, 8195, 8196, 8197, 8198, 8199, 8200, 8201, 8202, 8232, 8233, 8239, 8287, 12288, 65279}

  lemma SpacesAre(c: char)
    ensures IsSpace(c) <==> c as int in SPACES
  {
  }

  /** \s* */
  ghost predicate AllSpace(s: string) {
    forall i :: 0 <= i < |s| ==> s[i] as int in SPACES
  }

  /** .* on a line without line feeds and carriage returns */
  ghost predicate AllDots(s: string) {
    forall i :: 0 <= i < |s| ==> s[i] as int != 8232 && s[i] as int != 8233
  }

  /** #{2,6} */
  ghost predicate TwoToSixHashes(s: string) {
    2 <= |s| <= 6 && forall i :: 0 <= i < |s| ==> s[i] == '#'
  }

  lemma AllSpaceIsBlank(s: string)
    ensures AllSpace(s) <==> Blank(s)
  {
    hide IsSpace;
    forall i | 0 <= i < |s|
      ensures IsSpace(s[i]) <==> s[i] as int in SPACES
    {
      SpacesAre(s[i]);
    }
  }

  lemma HashesOf(h: string, rest: string)
    requires (forall i :: 0 <= i < |h| ==> h[i] == '#') && (rest == "" || rest[0] != '#')
    ensures Hashes(h + rest) == |h| && AfterHashes(h + rest) == rest
  {
    var line := h + rest;
    assert forall i :: 0 <= i < |h| ==> line[i] == h[i];
    assert rest != "" ==> line[|h|] == rest[0];
  }

  // ---- The parser ----

  /** ^(#{2,6})\s+(.+)$ matches, the second group being the title. */
  ghost predicate HeadingMatch(line: string, hashes: string, space: string, title: string) {
    line == hashes + space + title && TwoToSixHashes(hashes) && AllSpace(space) && space != "" && AllDots(title) && title != ""
  }

  lemma DotsAre(s: string)
    ensures AllDots(s) <==> !HasTerminator(s)
  {
    if HasTerminator(s) {
      var i :| 0 <= i < |s| && Terminator(s[i]);
      assert s[i] as int == 8232 || s[i] as int == 8233;
    }
    if !HasTerminator(s) {
      forall i | 0 <= i < |s|
        ensures s[i] as int != 8232 && s[i] as int != 8233
      {
        assert !Terminator(s[i]);
      }
    }
  }

  lemma SpaceIsNoHash(space: string, x: string)
    requires AllSpace(space) && space != ""
    ensures (space + x)[0] != '#' && IsSpace((space + x)[0])
  {
    SpacesAre(space[0]);
    assert (space + x)[0] == space[0];
  }

  /** Two to six hashes and whitespace: what both the parser and the edit look for. */
  lemma MarkerIff(line: string)
    ensures Marker(line) <==> exists hashes, space, rest :: line == hashes + space + rest && TwoToSixHashes(hashes) && AllSpace(space) && space != ""
  {
    hide IsSpace;
    if Marker(line) {
      var n := Hashes(line);
      SpacesAre(line[n]);
      assert line == line[..n] + [line[n]] + line[n + 1..];
    }
    forall hashes, space, rest | line == hashes + space + rest && TwoToSixHashes(hashes) && AllSpace(space) && space != ""
      ensures Marker(line)
    {
      SpaceIsNoHash(space, rest);
      HashesOf(hashes, space + rest);
      assert line == hashes + (space + rest);
    }
  }

  /** Whatever way the expression matches, the title is the same when trimmed. */
  lemma MatchedTitle(line: string, hashes: string, space: string, title: string)
    requires HeadingMatch(line, hashes, space, title)
    ensures HeadingTitle(line) == Some(Trim(title))
  {
    hide IsSpace, Terminator, Hashes;
    SpaceIsNoHash(space, title);
    HashesOf(hashes, space + title);
    assert line == hashes + (space + title);
    DotsAre(title);
    AllSpaceIsBlank(space);
    hide AllDots, AllSpace, HasTerminator;
    TitleOfSpaced(space, title);
  }

  lemma TitleOfSpaced(space: string, title: string)
    requires Blank(space) && space != "" && !HasTerminator(title) && title != ""
    ensures TitleOf(space + title) == Some(Trim(title))
  {
    hide IsSpace, Terminator;
    var rest := space + title;
    StartAfterBlank(space, title);
    TrimStartIs(title);
    TailHasNoTerminator(title, |title| - |TrimStart(title)|);
    assert rest[|rest| - 1] == title[|title| - 1];
    assert !Terminator(title[|title| - 1]);
    if TrimStart(title) == [] {
      assert TrimEnd([]) == [];
    }
  }

  lemma {:induction false} StartAfterBlank(space: string, x: string)
    requires Blank(space)
    ensures TrimStart(space + x) == TrimStart(x)
  {
    hide IsSpace;
    if space == [] {
      assert space + x == x;
    } else {
      assert (space + x)[1..] == space[1..] + x;
      StartAfterBlank(space[1..], x);
    }
  }

  /** A line is a heading for the parser exactly when its expression matches it, and the
      title is the trimmed second group of every match. */
  lemma HeadingIffMatch(line: string)
    ensures HeadingTitle(line).Some? <==> exists hashes, space, title :: HeadingMatch(line, hashes, space, title)
    ensures forall hashes, space, title :: HeadingMatch(line, hashes, space, title) ==> HeadingTitle(line) == Some(Trim(title))
  {
    hide HeadingMatch, HeadingTitle, Trim;
    forall hashes, space, title | HeadingMatch(line, hashes, space, title)
      ensures HeadingTitle(line) == Some(Trim(title))
    {
      MatchedTitle(line, hashes, space, title);
    }
    if HeadingTitle(line).Some? {
      var hashes, space, title := AMatch(line);
    }
  }

  lemma AMatch(line: string) returns (hashes: string, space: string, title: string)
    requires HeadingTitle(line).Some?
    ensures HeadingMatch(line, hashes, space, title)
  {
    hide IsSpace, Terminator, HasTerminator;
    var rest := AfterHashes(line);
    hashes := line[..Hashes(line)];
    assert line == hashes + rest;
    TrimStartIs(rest);
    hide TrimStart;
    if TrimStart(rest) != [] {
      space, title := SplitAtText(rest);
    } else {
      space, title := SplitAtLast(rest);
    }
    AllSpaceIsBlank(space);
    DotsAre(title);
    hide AllSpace, AllDots, Blank, Hashes;
    Reassociate(hashes, space, title);
  }

  lemma SplitAtText(rest: string) returns (space: string, title: string)
    requires rest != [] && IsSpace(rest[0]) && TrimStart(rest) != [] && !HasTerminator(TrimStart(rest))
    ensures rest == space + title && Blank(space) && space != "" && title != "" && !HasTerminator(title)
  {
    hide IsSpace, HasTerminator;
    TrimStartIs(rest);
    var t := TrimStart(rest);
    space, title := rest[..|rest| - |t|], t;
    assert rest == space + title;
    assert space == "" ==> rest == t;
  }

  lemma SplitAtLast(rest: string) returns (space: string, title: string)
    requires |rest| >= 2 && TrimStart(rest) == [] && !Terminator(rest[|rest| - 1])
    ensures rest == space + title && Blank(space) && space != "" && title != "" && !HasTerminator(title)
  {
    hide IsSpace, Terminator;
    TrimStartIs(rest);
    var m := |rest| - 1;
    space, title := rest[..m], rest[m..];
    assert rest == space + title && rest[..|rest|] == rest;
    OneCharacter(rest[m], title);
  }

  lemma OneCharacter(c: char, s: string)
    requires s == [c] && !Terminator(c)
    ensures !HasTerminator(s)
  {
  }

  // ---- The edits ----

  /** ^#{2,6}\s+ followed by the heading's text and \s*$ */
  ghost predicate StartMatch(line: string, hashes: string, space: string, heading: string, end: string) {
    line == hashes + space + heading + end && TwoToSixHashes(hashes) && AllSpace(space) && space != "" && AllSpace(end)
  }

  /** The edited section starts at a line that its expression matches. */
  lemma StartIffMatch(line: string, heading: string)
    requires Trim(heading) == heading
    ensures StartsRegion(line, heading) <==> exists hashes, space, end :: StartMatch(line, hashes, space, heading, end)
  {
    hide IsSpace, Trim;
    forall hashes, space, end | StartMatch(line, hashes, space, heading, end)
      ensures StartsRegion(line, heading)
    {
      StartIsMatched(line, hashes, space, heading, end);
    }
    if StartsRegion(line, heading) {
      var hashes, space, end := AStart(line, heading);
    }
  }

  lemma StartIsMatched(line: string, hashes: string, space: string, heading: string, end: string)
    requires Trim(heading) == heading && StartMatch(line, hashes, space, heading, end)
    ensures StartsRegion(line, heading)
  {
    SpaceIsNoHash(space, heading + end);
    HashesOf(hashes, space + (heading + end));
    hide IsSpace, Hashes, Trim;
    assert line == hashes + (space + (heading + end));
    AllSpaceIsBlank(space);
    AllSpaceIsBlank(end);
    TrimWrap(space, heading, end);
    assert space + (heading + end) == space + heading + end;
  }

  lemma AStart(line: string, heading: string) returns (hashes: string, space: string, end: string)
    requires StartsRegion(line, heading)
    ensures StartMatch(line, hashes, space, heading, end)
  {
    hide IsSpace, Trim, Terminator;
    var rest := AfterHashes(line);
    hashes := line[..Hashes(line)];
    assert line == hashes + rest;
    space, end := TrimSplits(rest);
    if space == [] {
      assert rest == Trim(rest) + end;
      NoTextWithoutSpace(Trim(rest), end);
      space, end := rest, [];
      assert rest == space + heading + end;
      SpaceOfBlank(rest);
    }
    AllSpaceIsBlank(space);
    AllSpaceIsBlank(end);
    assert line == hashes + (space + heading + end);
    assert hashes + (space + heading + end) == hashes + space + heading + end;
  }

  lemma NoTextWithoutSpace(t: string, end: string)
    requires t + end != [] && IsSpace((t + end)[0]) && Trimmed(t)
    ensures t == []
  {
    hide IsSpace;
  }

  lemma SpaceOfBlank(rest: string)
    requires Trim(rest) == []
    ensures Blank(rest)
  {
    hide IsSpace, Trim;
    var a, b := TrimSplits(rest);
    BlankConcat(a, b);
    assert a + [] + b == a + b;
  }

  /** It ends before a line, its line feed included, that ^#{2,6}\s+ matches. */
  lemma EndIffMatch(line: string, last: bool)
    requires OneLine(line)
    ensures EndsRegion(line, last)
       <==> exists hashes, space, rest :: (if last then line else line + "\n") == hashes + space + rest && TwoToSixHashes(hashes) && AllSpace(space) && space != ""
  {
    var whole := if last then line else line + "\n";
    MarkerIff(whole);
    hide TwoToSixHashes, AllSpace;
    if !last {
      MarkerOfWhole(line);
    }
  }

  lemma MarkerOfWhole(line: string)
    requires OneLine(line)
    ensures Marker(line + "\n") <==> Marker(line) || (2 <= Hashes(line) <= 6 && AfterHashes(line) == [])
  {
    var n := Hashes(line);
    var h, rest := line[..n], AfterHashes(line) + "\n";
    assert line + "\n" == h + rest;
    HashesOf(h, rest);
    hide Hashes;
    assert AfterHashes(line) != [] ==> rest[0] == AfterHashes(line)[0];
  }

  /** What an edit keeps of a line is what follows its last terminator. */
  lemma {:induction false} KeptIsTail(line: string)
    ensures exists a :: line == a + Kept(line) && AllDots(Kept(line)) && (a == "" || a[|a| - 1] as int == 8232 || a[|a| - 1] as int == 8233)
  {
    if line == [] {
      assert line == "" + Kept(line);
    } else if Terminator(line[|line| - 1]) {
      assert line == line + Kept(line);
    } else {
      var front, last := line[..|line| - 1], line[|line| - 1];
      KeptIsTail(front);
      var a :| front == a + Kept(front) && AllDots(Kept(front)) && (a == "" || a[|a| - 1] as int == 8232 || a[|a| - 1] as int == 8233);
      assert line == front + [last];
      assert line == a + Kept(line);
    }
  }

  // ---- Validation ----

  /** Trimmed, and in whatever mixture of cases, the heading spells Evidence. */
  lemma EvidenceIff(heading: string)
    ensures IsEvidence(heading)
       <==> |Trim(heading)| == 8 && forall i :: 0 <= i < 8 ==> Trim(heading)[i] == "evidence"[i] || Trim(heading)[i] == "EVIDENCE"[i]
  {
    hide Trim;
    var t, lower, upper := Trim(heading), "evidence", "EVIDENCE";
    forall i | 0 <= i < 8 && i < |t|
      ensures Lower(t[i]) == lower[i] <==> t[i] == lower[i] || t[i] == upper[i]
    {
      LettersDiffer(i);
    }
    assert LowerCase(t) == lower <==> |t| == 8 && forall i :: 0 <= i < 8 ==> LowerCase(t)[i] == lower[i];
  }

  lemma LettersDiffer(i: nat)
    requires i < 8
    ensures "EVIDENCE"[i] as int + 32 == "evidence"[i] as int && 'A' <= "EVIDENCE"[i] <= 'Z'
  {
  }

  /** An operation passes validation exactly when its trimmed heading is not empty, has no
      line feed or carriage return and starts with no hash, and it does not replace Evidence. */
  lemma ValidIff(op: Operation)
    ensures ValidOperation(op)
       <==> && Trim(op.heading) != "" && Trim(op.heading)[0] != '#'
            && (forall i :: 0 <= i < |Trim(op.heading)| ==> Trim(op.heading)[i] as int != 10 && Trim(op.heading)[i] as int != 13)
            && !(IsEvidence(op.heading) && op.action == Replace)
  {
    hide Trim, IsEvidence;
    var heading := Trim(op.heading);
    assert OneLine(heading) <==> forall i :: 0 <= i < |heading| ==> heading[i] as int != 10;
    assert '\r' !in heading <==> forall i :: 0 <= i < |heading| ==> heading[i] as int != 13;
  }
}
