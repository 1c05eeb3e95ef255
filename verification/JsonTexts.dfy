/** Texts that a reader takes for one value, and how the texts of lists and objects are
    put together from those of their parts. */
module JsonTexts {
  import opened Text
  import opened JsonValues
  import opened CanonicalJson
  import opened JsonReader

  /** A reader takes the text for the value, whatever can follow. */
  ghost predicate IsTextOf(t: string, j: Json) {
    forall x :: Ended(x) ==> ReadValue(t + x) == Done(j, x)
  }

  ghost predicate AreTextsOf(ts: seq<string>, js: seq<Json>) {
    |ts| == |js| && forall i :: 0 <= i < |ts| ==> IsTextOf(ts[i], js[i])
  }

  /** What is left of an object after some members: the others, its brace, and x. */
  ghost predicate Continues(t: string, members: seq<Member>, x: string) {
    || (t == "}" + x && members == [])
    || (t != [] && t[0] == ',' && ReadMembers(t[1..]) == Done(members, x))
  }

  /** The text of an object with at least these members, up to their end. */
  ghost predicate OpensObject(head: string, members: seq<Member>) {
    forall t, more, x :: Continues(t, more, x) ==> ReadValue(head + t) == Done(Object(members + more), x)
  }

  // ---- Strings, lists, members ----

  lemma StringText(s: string)
    ensures IsTextOf(Quote(s), Json.Text(s))
  {
    hide Quote, ReadChars;
    forall x | Ended(x)
      ensures ReadValue(Quote(s) + x) == Done(Json.Text(s), x)
    {
      QuoteIsRead(s, x);
      assert (Quote(s) + x)[0] == '\"';
    }
  }

  lemma TextIsRead(t: string, j: Json, x: string)
    requires IsTextOf(t, j) && Ended(x)
    ensures ReadValue(t + x) == Done(j, x)
  {
  }

  lemma ContinuesIsEnded(t: string, members: seq<Member>, x: string)
    requires Continues(t, members, x)
    ensures Ended(t) && t != []
  {
  }

  lemma ItemStep(u: string, value: Json, t: string)
    requires ReadValue(u) == Done(value, t)
    ensures "]" <= t ==> ReadItems(u) == Done([value], t[1..])
    ensures "," <= t && ReadItems(t[1..]).Done? ==> ReadItems(u) == Done([value] + ReadItems(t[1..]).value, ReadItems(t[1..]).rest)
  {
    hide ReadValue;
    if "," <= t {
      assert t[0] == ',' && !("]" <= t);
    }
  }

  lemma JoinCons(ts: seq<string>, end: string)
    requires |ts| > 1
    ensures Join(ts, ",") + end == ts[0] + ("," + (Join(ts[1..], ",") + end))
  {
    assert Join(ts, ",") == ts[0] + "," + Join(ts[1..], ",");
    CommaBetween(ts[0], Join(ts[1..], ","), end);
  }

  lemma CommaBetween(a: string, b: string, end: string)
    ensures a + "," + b + end == a + ("," + (b + end))
  {
  }

  lemma {:induction false} ItemsAreReadBack(ts: seq<string>, js: seq<Json>, x: string)
    requires AreTextsOf(ts, js) && ts != []
    ensures ReadItems(Join(ts, ",") + ("]" + x)) == Done(js, x)
  {
    hide ReadValue, ReadItems, IsTextOf;
    var end := "]" + x;
    if |ts| == 1 {
      TextIsRead(ts[0], js[0], end);
      ItemStep(ts[0] + end, js[0], end);
      assert end[1..] == x && js == [js[0]];
    } else {
      var rest := Join(ts[1..], ",") + end;
      JoinCons(ts, end);
      hide Join;
      ItemsAreReadBack(ts[1..], js[1..], x);
      TextIsRead(ts[0], js[0], "," + rest);
      ItemStep(ts[0] + ("," + rest), js[0], "," + rest);
      assert ("," + rest)[1..] == rest;
      assert js == [js[0]] + js[1..];
    }
  }

  lemma TextStarts(t: string, j: Json, x: string)
    requires IsTextOf(t, j)
    ensures t != [] && t[0] != ']'
  {
    TextIsRead(t, j, "");
    assert t + "" == t;
  }

  lemma ListText(ts: seq<string>, js: seq<Json>)
    requires AreTextsOf(ts, js)
    ensures IsTextOf("[" + Join(ts, ",") + "]", Array(js))
  {
    hide IsTextOf, Join;
    forall x | Ended(x)
      ensures ReadValue("[" + Join(ts, ",") + "]" + x) == Done(Array(js), x)
    {
      ListIsRead(ts, js, x);
    }
    IsText("[" + Join(ts, ",") + "]", Array(js));
  }

  lemma IsText(t: string, j: Json)
    requires forall x :: Ended(x) ==> ReadValue(t + x) == Done(j, x)
    ensures IsTextOf(t, j)
  {
  }

  lemma ListIsRead(ts: seq<string>, js: seq<Json>, x: string)
    requires AreTextsOf(ts, js)
    ensures ReadValue("[" + Join(ts, ",") + "]" + x) == Done(Array(js), x)
  {
    hide IsTextOf, ReadItems, ReadValue;
    var t := "[" + Join(ts, ",") + "]" + x;
    if ts == [] {
      assert Join(ts, ",") == "";
      assert "[" + "" + "]" == "[]";
      EmptyBracketsRead(t, x);
    } else {
      ItemsAreReadBack(ts, js, x);
      TextStarts(ts[0], js[0], x);
      assert t[1..] == Join(ts, ",") + ("]" + x);
      assert t[0] == '[' && t[1] == ts[0][0];
      BracketReads(t, js, x);
    }
  }

  /** One more member in front of what is left. */
  lemma MemberContinues(key: string, text: string, value: Json, t: string, members: seq<Member>, x: string)
    requires IsTextOf(text, value) && Continues(t, members, x)
    ensures Continues("," + (Quote(key) + (":" + (text + t))), [Member(key, value)] + members, x)
  {
    MemberIsRead(key, text, value, t, members, x);
    hide ReadMembers, Quote;
    var rest := Quote(key) + (":" + (text + t));
    assert ("," + rest)[1..] == rest;
  }

  lemma MemberIsRead(key: string, text: string, value: Json, t: string, members: seq<Member>, x: string)
    requires IsTextOf(text, value) && Continues(t, members, x)
    ensures ReadMembers(Quote(key) + (":" + (text + t))) == Done([Member(key, value)] + members, x)
  {
    ContinuesIsEnded(t, members, x);
    TextIsRead(text, value, t);
    QuoteIsRead(key, ":" + (text + t));
    assert (":" + (text + t))[1..] == text + t;
    MemberStep(Quote(key) + (":" + (text + t)), key, ":" + (text + t), value, t);
    hide *;
    if t == "}" + x && members == [] {
      assert t[1..] == x && [Member(key, value)] + members == [Member(key, value)];
    } else {
      ContinuesOn(t, members, x);
    }
  }

  lemma MemberStep(u: string, key: string, rest: string, value: Json, t: string)
    requires "\"" <= u && ReadChars(u[1..]) == Done(key, rest) && ":" <= rest && ReadValue(rest[1..]) == Done(value, t)
    ensures "}" <= t ==> ReadMembers(u) == Done([Member(key, value)], t[1..])
    ensures "," <= t && ReadMembers(t[1..]).Done? ==> ReadMembers(u) == Done([Member(key, value)] + ReadMembers(t[1..]).value, ReadMembers(t[1..]).rest)
  {
    hide ReadChars, ReadValue;
  }

  lemma ContinuesOn(t: string, members: seq<Member>, x: string)
    requires Continues(t, members, x) && !(t == "}" + x && members == [])
    ensures "," <= t && ReadMembers(t[1..]) == Done(members, x)
  {
    hide ReadMembers;
  }

  lemma PlainQuote(s: string)
    requires Plain(s)
    ensures Quote(s) == "\"" + s + "\""
  {
    PlainBytes(s);
  }

  lemma ClosingBrace(x: string)
    ensures Continues("}" + x, [], x)
  {
  }

  lemma MemberLast(key: string, text: string, value: Json, x: string)
    requires IsTextOf(text, value)
    ensures Continues("," + (Quote(key) + (":" + (text + ("}" + x)))), [Member(key, value)], x)
  {
    hide IsTextOf, Continues, Quote;
    ClosingBrace(x);
    MemberContinues(key, text, value, "}" + x, [], x);
    assert [Member(key, value)] + [] == [Member(key, value)];
  }

  lemma OneMember(key: string, text: string, value: Json)
    requires IsTextOf(text, value)
    ensures OpensObject("{" + (Quote(key) + (":" + text)), [Member(key, value)])
  {
    hide IsTextOf, Continues, ReadMembers, ReadValue;
    var head := "{" + (Quote(key) + (":" + text));
    forall t, more, x | Continues(t, more, x)
      ensures ReadValue(head + t) == Done(Object([Member(key, value)] + more), x)
    {
      MemberIsRead(key, text, value, t, more, x);
      hide Quote;
      QuoteFirst(key, ":" + (text + t));
      var rest := Quote(key) + (":" + (text + t));
      assert head + t == "{" + rest;
      assert (head + t)[0] == '{' && (head + t)[1..] == rest && (head + t)[1] == '\"';
      BraceReads(head + t, [Member(key, value)] + more, x);
    }
  }

  lemma OpenedReads(head: string, members: seq<Member>, t: string, more: seq<Member>, x: string)
    requires OpensObject(head, members) && Continues(t, more, x)
    ensures ReadValue(head + t) == Done(Object(members + more), x)
  {
  }

  // ---- JSON.stringify ----

  lemma ScalarText(j: Json)
    requires WellFormed(j) && !j.Array? && !j.Object?
    ensures IsTextOf(Canonical(j), j)
  {
    hide Canonical, ReadValue;
    forall x | Ended(x)
      ensures ReadValue(Canonical(j) + x) == Done(j, x)
    {
      ScalarIsRead(j, x);
    }
  }

  function MemberText(m: Member, text: string): string {
    Quote(m.key) + ":" + text
  }

  /** Members after the first, each behind a comma. */
  lemma {:induction false} MembersContinue(members: seq<Member>, texts: seq<string>, x: string)
    requires |members| == |texts| && forall i :: 0 <= i < |members| ==> IsTextOf(texts[i], members[i].value)
    ensures Continues(CommaMembers(members, texts) + ("}" + x), members, x)
  {
    hide IsTextOf, Continues, Quote;
    if members == [] {
      ClosingBrace(x);
      assert "" + ("}" + x) == "}" + x;
    } else {
      var rest := CommaMembers(members[1..], texts[1..]) + ("}" + x);
      MembersContinue(members[1..], texts[1..], x);
      CanonicalMemberContinues(members, texts, rest, x);
    }
  }

  lemma CanonicalMemberContinues(members: seq<Member>, texts: seq<string>, rest: string, x: string)
    requires members != [] && |members| == |texts| && IsTextOf(texts[0], members[0].value)
    requires rest == CommaMembers(members[1..], texts[1..]) + ("}" + x) && Continues(rest, members[1..], x)
    ensures Continues(CommaMembers(members, texts) + ("}" + x), members, x)
  {
    hide IsTextOf, Continues, Quote;
    MemberContinues(members[0].key, texts[0], members[0].value, rest, members[1..], x);
    assert [Member(members[0].key, members[0].value)] + members[1..] == members;
    Bracketed(Quote(members[0].key), texts[0], CommaMembers(members[1..], texts[1..]), "}" + x);
  }

  lemma Bracketed(key: string, text: string, more: string, end: string)
    ensures "," + (key + ":" + text) + more + end == "," + (key + (":" + (text + (more + end))))
  {
  }

  function CommaMembers(members: seq<Member>, texts: seq<string>): string
    requires |members| == |texts|
  {
    if members == [] then "" else "," + MemberText(members[0], texts[0]) + CommaMembers(members[1..], texts[1..])
  }

  ghost predicate AreMemberTexts(parts: seq<string>, members: seq<Member>, texts: seq<string>) {
    |parts| == |members| == |texts| && forall i :: 0 <= i < |parts| ==> parts[i] == MemberText(members[i], texts[i])
  }

  lemma {:induction false} JoinedMembers(parts: seq<string>, members: seq<Member>, texts: seq<string>)
    requires parts != [] && AreMemberTexts(parts, members, texts)
    ensures Join(parts, ",") == parts[0] + CommaMembers(members[1..], texts[1..])
  {
    hide MemberText;
    if |parts| == 1 {
      assert members[1..] == [];
      assert parts[0] + "" == parts[0];
    } else {
      JoinedMembers(parts[1..], members[1..], texts[1..]);
      assert parts[1..][0] == MemberText(members[1], texts[1]);
      assert members[1..][1..] == members[2..] && texts[1..][1..] == texts[2..];
      Commas(parts[0], parts[1], CommaMembers(members[2..], texts[2..]));
    }
  }

  lemma Commas(a: string, b: string, c: string)
    ensures a + "," + (b + c) == a + ("," + b + c)
  {
  }

  /** The texts of members, joined by commas and put into braces, are the object's. */
  lemma MembersText(parts: seq<string>, members: seq<Member>, texts: seq<string>)
    requires AreMemberTexts(parts, members, texts) && forall i :: 0 <= i < |members| ==> IsTextOf(texts[i], members[i].value)
    ensures IsTextOf("{" + Join(parts, ",") + "}", Object(members))
  {
    hide IsTextOf, Join, ReadValue;
    var t := "{" + Join(parts, ",") + "}";
    forall x | Ended(x)
      ensures ReadValue(t + x) == Done(Object(members), x)
    {
      MembersAreReadBack(parts, members, texts, x);
    }
    IsText(t, Object(members));
  }

  lemma MembersAreReadBack(parts: seq<string>, members: seq<Member>, texts: seq<string>, x: string)
    requires AreMemberTexts(parts, members, texts) && forall i :: 0 <= i < |members| ==> IsTextOf(texts[i], members[i].value)
    ensures ReadValue("{" + Join(parts, ",") + "}" + x) == Done(Object(members), x)
  {
    hide IsTextOf, Continues, OpensObject, ReadValue, Quote, CommaMembers;
    if parts == [] {
      assert Join(parts, ",") == "";
      assert "{" + "" + "}" == "{}";
      EmptyBracesRead("{" + Join(parts, ",") + "}" + x, x);
    } else {
      var m, more := members[0], CommaMembers(members[1..], texts[1..]);
      hide Join;
      JoinedMembers(parts, members, texts);
      OneMember(m.key, texts[0], m.value);
      MembersContinue(members[1..], texts[1..], x);
      OpenedReads("{" + (Quote(m.key) + (":" + texts[0])), [m], more + ("}" + x), members[1..], x);
      assert [m] + members[1..] == members;
      Braced(Quote(m.key), texts[0], more, x);
    }
  }

  lemma Braced(key: string, text: string, more: string, x: string)
    ensures "{" + (key + ":" + text + more) + "}" + x == "{" + (key + (":" + text)) + (more + ("}" + x))
  {
  }
}
