/** extractMarkdownSections of backlog-domain.ts: the sections of a Markdown body, by
    title, and what each section holds. */
module SectionParser {
  import opened Text
  import opened MarkdownLines

  // ---- Heading lines ----

  function Hashes(line: string): (n: nat)
    ensures n <= |line|
    ensures forall i :: 0 <= i < n ==> line[i] == '#'
    ensures n < |line| ==> line[n] != '#'
  {
    if line != [] && line[0] == '#' then 1 + Hashes(line[1..]) else 0
  }

  function AfterHashes(line: string): string {
    line[Hashes(line)..]
  }

  /** Two to six hashes, then whitespace. */
  predicate Marker(line: string) {
    2 <= Hashes(line) <= 6 && AfterHashes(line) != [] && IsSpace(AfterHashes(line)[0])
  }

  predicate HasTerminator(s: string) {
    exists i :: 0 <= i < |s| && Terminator(s[i])
  }

  /** The title the parser sees in a heading line: everything after the hashes, trimmed,
      as long as it fits on the line. A heading of whitespace alone has no title. */
  function HeadingTitle(line: string): (title: Option<string>)
    ensures title.Some? ==> Marker(line)
  {
    if Marker(line) then TitleOf(AfterHashes(line)) else None
  }

  function TitleOf(rest: string): Option<string>
    requires rest != []
  {
    var t := TrimStart(rest);
    if t == [] then (if |rest| >= 2 && !Terminator(rest[|rest| - 1]) then Some("") else None)
    else if HasTerminator(t) then None
    else Some(TrimEnd(t))
  }

  // ---- The parser ----

  datatype Parse = Parse(sections: map<string, string>, title: string, region: seq<string>)

  function RegionText(region: seq<string>): string {
    if region == [] then "" else JoinLines(region)
  }

  function Closed(p: Parse): map<string, string> {
    if p.title != "" then p.sections[p.title := Trim(RegionText(p.region))] else p.sections
  }

  function ParseLine(p: Parse, line: string): Parse {
    var title := HeadingTitle(line);
    if title.Some? then Parse(Closed(p), title.value, [])
    else if p.title != "" then p.(region := p.region + [line])
    else p
  }

  function ParseLines(p: Parse, lines: seq<string>): Parse
    decreases |lines|
  {
    if lines == [] then p else ParseLines(ParseLine(p, lines[0]), lines[1..])
  }

  /** The sections of a body given by its lines. */
  function Sections(lines: seq<string>): map<string, string> {
    Closed(ParseLines(Parse(map[], "", []), lines))
  }

  lemma {:induction false} ParseConcat(p: Parse, a: seq<string>, b: seq<string>)
    ensures ParseLines(p, a + b) == ParseLines(ParseLines(p, a), b)
    decreases |a|
  {
    hide ParseLine;
    if a == [] {
      assert a + b == b;
    } else {
      assert (a + b)[1..] == a[1..] + b;
      ParseConcat(ParseLine(p, a[0]), a[1..], b);
    }
  }

  method ExtractMarkdownSections(lines: seq<string>) returns (sections: map<string, string>)
    ensures sections == Sections(lines)
  {
    hide HeadingTitle, Trim, RegionText;
    sections := map[];
    var currentTitle := "";
    var currentLines: seq<string> := [];
    for i := 0 to |lines|
      invariant Parse(sections, currentTitle, currentLines) == ParseLines(Parse(map[], "", []), lines[..i])
    {
      assert lines[..i + 1] == lines[..i] + [lines[i]];
      ParseConcat(Parse(map[], "", []), lines[..i], [lines[i]]);
      ghost var before := Parse(sections, currentTitle, currentLines);
      assert ParseLines(before, [lines[i]]) == ParseLine(before, lines[i]);
      var title := HeadingTitle(lines[i]);
      if title.Some? {
        if currentTitle != "" {
          sections := sections[currentTitle := Trim(RegionText(currentLines))];
        }
        currentTitle := title.value;
        currentLines := [];
      } else if currentTitle != "" {
        currentLines := currentLines + [lines[i]];
      }
    }
    assert lines[..|lines|] == lines;
    if currentTitle != "" {
      sections := sections[currentTitle := Trim(RegionText(currentLines))];
    }
  }

  // ---- What the parser finds ----

  predicate IsHeading(line: string) {
    HeadingTitle(line).Some?
  }

  predicate Titled(line: string, title: string) {
    HeadingTitle(line) == Some(title)
  }

  ghost predicate HeadingFree(lines: seq<string>) {
    forall i :: 0 <= i < |lines| ==> !IsHeading(lines[i])
  }

  ghost predicate NoneTitled(lines: seq<string>, title: string) {
    forall i :: 0 <= i < |lines| ==> !Titled(lines[i], title)
  }

  /** The lines before the next heading. */
  function Leading(lines: seq<string>): (n: nat)
    ensures n <= |lines|
    ensures HeadingFree(lines[..n])
    ensures n < |lines| ==> IsHeading(lines[n])
  {
    if lines == [] || IsHeading(lines[0]) then 0
    else
      var n := Leading(lines[1..]);
      assert lines[..n + 1] == [lines[0]] + lines[1..][..n];
      1 + n
  }

  lemma {:induction false} ParseRegion(p: Parse, lines: seq<string>)
    requires p.title != "" && HeadingFree(lines)
    ensures ParseLines(p, lines) == p.(region := p.region + lines)
    decreases |lines|
  {
    hide HeadingTitle;
    if lines == [] {
      assert p.region + lines == p.region;
    } else {
      assert IsHeading(lines[0]) == HeadingTitle(lines[0]).Some?;
      assert forall i :: 0 <= i < |lines| - 1 ==> lines[1..][i] == lines[i + 1];
      ParseRegion(ParseLine(p, lines[0]), lines[1..]);
      assert p.region + [lines[0]] + lines[1..] == p.region + lines;
    }
  }

  /** Sections recorded under a title stay when no later heading has it. */
  lemma {:induction false} KeptSection(p: Parse, lines: seq<string>, title: string)
    requires p.title != title && NoneTitled(lines, title)
    ensures (title in Closed(ParseLines(p, lines))) == (title in p.sections)
    ensures title in p.sections ==> Closed(ParseLines(p, lines))[title] == p.sections[title]
    decreases |lines|
  {
    hide HeadingTitle, Trim, RegionText;
    if lines != [] {
      assert !Titled(lines[0], title);
      assert forall i :: 0 <= i < |lines| - 1 ==> lines[1..][i] == lines[i + 1];
      KeptSection(ParseLine(p, lines[0]), lines[1..], title);
    }
  }

  /** The open section ends at the next heading. */
  lemma OpenSection(p: Parse, lines: seq<string>)
    requires p.title != "" && NoneTitled(lines, p.title)
    ensures p.title in Closed(ParseLines(p, lines))
    ensures Closed(ParseLines(p, lines))[p.title] == Trim(RegionText(p.region + lines[..Leading(lines)]))
  {
    hide HeadingTitle, Trim, RegionText;
    var n := Leading(lines);
    assert lines == lines[..n] + lines[n..];
    ParseConcat(p, lines[..n], lines[n..]);
    ParseRegion(p, lines[..n]);
    var q := p.(region := p.region + lines[..n]);
    if n < |lines| {
      assert IsHeading(lines[n]) && !Titled(lines[n], p.title);
      assert lines[n..][0] == lines[n] && lines[n..][1..] == lines[n + 1..];
      KeptSection(ParseLine(q, lines[n]), lines[n + 1..], p.title);
    }
  }

  /** A section is found exactly when some heading has its title, and holds the trimmed
      lines between the last such heading and the next heading of any title. */
  lemma SectionIs(lines: seq<string>, i: nat, title: string)
    requires i < |lines| && Titled(lines[i], title) && title != "" && NoneTitled(lines[i + 1..], title)
    ensures title in Sections(lines)
    ensures Sections(lines)[title] == Trim(RegionText(lines[i + 1..][..Leading(lines[i + 1..])]))
  {
    hide HeadingTitle, Trim, RegionText, ParseLines;
    var start := Parse(map[], "", []);
    var p := ParseLines(start, lines[..i]);
    assert lines == lines[..i] + lines[i..];
    ParseConcat(start, lines[..i], lines[i..]);
    assert lines[i..] == [lines[i]] + lines[i + 1..];
    ParseConcat(p, [lines[i]], lines[i + 1..]);
    ParseOne(p, lines[i]);
    var q := ParseLine(p, lines[i]);
    OpenSection(q, lines[i + 1..]);
    assert q.region + lines[i + 1..][..Leading(lines[i + 1..])] == lines[i + 1..][..Leading(lines[i + 1..])];
  }

  lemma ParseOne(p: Parse, line: string)
    ensures ParseLines(p, [line]) == ParseLine(p, line)
  {
    hide ParseLine;
    assert [line][1..] == [];
  }

  lemma NoSection(lines: seq<string>, title: string)
    requires title != "" && NoneTitled(lines, title)
    ensures title !in Sections(lines)
  {
    KeptSection(Parse(map[], "", []), lines, title);
  }

  lemma {:induction false} NoEmptyTitle(p: Parse, lines: seq<string>)
    requires "" !in p.sections
    ensures "" !in Closed(ParseLines(p, lines))
    decreases |lines|
  {
    hide HeadingTitle, Trim, RegionText;
    if lines != [] {
      NoEmptyTitle(ParseLine(p, lines[0]), lines[1..]);
    }
  }

  /** Text before the first heading and under headings without a title is no section. */
  lemma NoUntitledSection(lines: seq<string>)
    ensures "" !in Sections(lines)
  {
    NoEmptyTitle(Parse(map[], "", []), lines);
  }

  // ---- Two bodies that differ in one section ----

  /** The same parse except for what belongs to one title. */
  ghost predicate AgreeOff(p: Parse, q: Parse, title: string) {
    && p.title == q.title && (p.title != title ==> p.region == q.region)
    && forall t :: t != title ==> ((t in p.sections) == (t in q.sections)) && (t in p.sections ==> p.sections[t] == q.sections[t])
  }

  lemma {:induction false} AgreementLasts(p: Parse, q: Parse, lines: seq<string>, title: string)
    requires AgreeOff(p, q, title)
    ensures AgreeOff(ParseLines(p, lines), ParseLines(q, lines), title)
    decreases |lines|
  {
    hide HeadingTitle, Trim, RegionText;
    if lines != [] {
      AgreementLasts(ParseLine(p, lines[0]), ParseLine(q, lines[0]), lines[1..], title);
    }
  }

  /** Replacing heading-free lines of one section by other heading-free lines changes no
      other section. */
  lemma OtherSectionsStay(front: seq<string>, a: seq<string>, b: seq<string>, back: seq<string>, i: nat, title: string, other: string)
    requires |front| == i + 1 && Titled(front[i], title) && title != "" && other != title
    requires HeadingFree(a) && HeadingFree(b)
    ensures (other in Sections(front + a + back)) == (other in Sections(front + b + back))
    ensures other in Sections(front + a + back) ==> Sections(front + a + back)[other] == Sections(front + b + back)[other]
  {
    hide HeadingTitle, Trim, RegionText, ParseLines;
    var start := Parse(map[], "", []);
    var p := ParseLines(start, front);
    assert front == front[..i] + [front[i]];
    ParseConcat(start, front[..i], [front[i]]);
    ParseOne(ParseLines(start, front[..i]), front[i]);
    ParseConcat(start, front + a, back);
    ParseConcat(start, front, a);
    ParseConcat(start, front + b, back);
    ParseConcat(start, front, b);
    ParseRegion(p, a);
    ParseRegion(p, b);
    AgreementLasts(ParseLines(p, a), ParseLines(p, b), back, title);
  }
}
