/** The text whose bytes are counted is the JSON text of the reducer input: a reader makes
    of it one object with the members, the outcomes and the diagnostics, and nothing else. */
module ReducerJson {
  import opened Text
  import opened JsonValues
  import opened CanonicalJson
  import opened JsonReader
  import opened JsonTexts
  import opened ReducerInput

  // ---- Diagnostics ----

  function DiagnosticJson(d: Diagnostic): Json {
    Object([Member("code", Json.Text(d.code)), Member("severity", Json.Text("warning")), Member("message", Json.Text(d.message))]
           + if d.path.Some? then [Member("path", Json.Text(d.path.value))] else [])
  }

  lemma DiagnosticTail(d: Diagnostic, x: string)
    ensures var path := if d.path.Some? then ",\"path\":" + Quote(d.path.value) else "";
            Continues(path + ("}" + x), if d.path.Some? then [Member("path", Json.Text(d.path.value))] else [], x)
  {
    hide Escape, Continues, IsTextOf;
    ClosingBrace(x);
    if d.path.Some? {
      var v := d.path.value;
      StringText(v);
      PlainQuote("path");
      MemberLast("path", Quote(v), Json.Text(v), x);
      assert ",\"path\":" + Quote(v) + ("}" + x) == "," + (Quote("path") + (":" + (Quote(v) + ("}" + x))));
    } else {
      assert "" + ("}" + x) == "}" + x;
    }
  }

  /** A diagnostic's text is that of its four members, the path only when it has one. */
  lemma DiagnosticIsRead(d: Diagnostic)
    ensures IsTextOf(DiagnosticText(d), DiagnosticJson(d))
  {
    hide IsTextOf;
    forall x | Ended(x)
      ensures ReadValue(DiagnosticText(d) + x) == Done(DiagnosticJson(d), x)
    {
      DiagnosticReads(d, x);
    }
    IsText(DiagnosticText(d), DiagnosticJson(d));
  }

  lemma DiagnosticReads(d: Diagnostic, x: string)
    ensures ReadValue(DiagnosticText(d) + x) == Done(DiagnosticJson(d), x)
  {
    hide IsTextOf, Continues, OpensObject, ReadValue, Escape;
    var path := if d.path.Some? then ",\"path\":" + Quote(d.path.value) else "";
    var pathMembers := if d.path.Some? then [Member("path", Json.Text(d.path.value))] else [];
    DiagnosticTail(d, x);
    StringText(d.message);
    StringText("warning");
    StringText(d.code);
    var t1 := path + ("}" + x);
    MemberContinues("message", Quote(d.message), Json.Text(d.message), t1, pathMembers, x);
    var t2 := "," + (Quote("message") + (":" + (Quote(d.message) + t1)));
    MemberContinues("severity", Quote("warning"), Json.Text("warning"), t2, [Member("message", Json.Text(d.message))] + pathMembers, x);
    var t3 := "," + (Quote("severity") + (":" + (Quote("warning") + t2)));
    OneMember("code", Quote(d.code), Json.Text(d.code));
    var head := "{" + (Quote("code") + (":" + Quote(d.code)));
    OpenedReads(head, [Member("code", Json.Text(d.code))], t3, [Member("severity", Json.Text("warning"))] + ([Member("message", Json.Text(d.message))] + pathMembers), x);
    CodeKey();
    SeverityKey();
    MessageKey();
    SeverityAndMessage();
    hide Quote;
    DiagnosticPieces("{\"code\":", Quote(d.code), ",\"severity\":\"warning\",\"message\":", Quote(d.message), path, x,
                     Quote("code"), Quote("severity"), Quote("warning"), Quote("message"));
    assert [Member("code", Json.Text(d.code))] + ([Member("severity", Json.Text("warning"))] + ([Member("message", Json.Text(d.message))] + pathMembers))
        == [Member("code", Json.Text(d.code)), Member("severity", Json.Text("warning")), Member("message", Json.Text(d.message))] + pathMembers;
  }

  lemma CodeKey()
    ensures "{\"code\":" == "{" + (Quote("code") + ":")
  {
    hide Escape;
    PlainQuote("code");
  }

  lemma SeverityKey()
    ensures ",\"severity\":\"warning\"" == "," + (Quote("severity") + (":" + Quote("warning")))
  {
    hide Escape;
    PlainQuote("severity");
    PlainQuote("warning");
  }

  lemma MessageKey()
    ensures ",\"message\":" == "," + (Quote("message") + ":")
  {
    hide Escape;
    PlainQuote("message");
  }

  lemma SeverityAndMessage()
    ensures ",\"severity\":\"warning\",\"message\":" == ",\"severity\":\"warning\"" + ",\"message\":"
  {
  }

  /** Concatenation, bracketed from the left and from the right. */
  lemma DiagnosticPieces(a: string, code: string, b: string, message: string, path: string, x: string,
                         k1: string, k2: string, w: string, k3: string)
    requires a == "{" + (k1 + ":") && b == ("," + (k2 + (":" + w))) + ("," + (k3 + ":"))
    ensures a + code + b + message + path + "}" + x
         == "{" + (k1 + (":" + code)) + ("," + (k2 + (":" + (w + ("," + (k3 + (":" + (message + (path + ("}" + x))))))))))
  {
  }

  // ---- The global context ----

  /** Members for the lists, under their keys. */
  function ListMembers(keys: seq<string>, values: seq<seq<Json>>): seq<Member>
    requires |keys| == |values|
  {
    if keys == [] then [] else [Member(keys[0], Array(values[0]))] + ListMembers(keys[1..], values[1..])
  }

  ghost predicate AreListsOf(lists: seq<seq<string>>, values: seq<seq<Json>>) {
    |lists| == |values| && forall k :: 0 <= k < |lists| ==> AreTextsOf(lists[k], values[k])
  }

  lemma {:induction false} ListsContinue(lists: seq<seq<string>>, keys: seq<string>, values: seq<seq<Json>>, t: string, more: seq<Member>, x: string)
    requires |lists| == |keys| && AreListsOf(lists, values) && Continues(t, more, x) && forall k :: 0 <= k < |keys| ==> Plain(keys[k])
    ensures Continues(ListsText(lists, keys) + t, ListMembers(keys, values) + more, x)
  {
    hide AreTextsOf, Continues, Plain;
    if lists == [] {
      assert ListsText(lists, keys) + t == t && ListMembers(keys, values) + more == more;
    } else {
      var rest := ListsText(lists[1..], keys[1..]) + t;
      var restMembers := ListMembers(keys[1..], values[1..]) + more;
      ListsContinue(lists[1..], keys[1..], values[1..], t, more, x);
      ListText(lists[0], values[0]);
      MemberContinues(keys[0], "[" + Join(lists[0], ",") + "]", Array(values[0]), rest, restMembers, x);
      PlainQuote(keys[0]);
      ListPieces(keys[0], Quote(keys[0]), Join(lists[0], ","), ListsText(lists[1..], keys[1..]), t);
      assert [Member(keys[0], Array(values[0]))] + restMembers == ListMembers(keys, values) + more;
    }
  }

  lemma ListPieces(key: string, quoted: string, items: string, lists: string, t: string)
    requires quoted == "\"" + key + "\""
    ensures ",\"" + key + "\":[" + items + "]" + lists + t == "," + (quoted + (":" + ("[" + items + "]" + (lists + t))))
  {
    assert ",\"" == "," + "\"" && "\":[" == "\"" + ":" + "[";
  }

  /** The redraft summary is a member only when there is one. */
  function RedraftMembers(redraft: Option<Json>): seq<Member> {
    if redraft.Some? then [Member("redraftSummary", redraft.value)] else []
  }

  ghost predicate IsRedraftOf(text: Option<string>, redraft: Option<Json>) {
    (text.Some? <==> redraft.Some?) && (text.Some? ==> IsTextOf(text.value, redraft.value))
  }

  lemma RedraftContinues(text: Option<string>, redraft: Option<Json>, x: string)
    requires IsRedraftOf(text, redraft)
    ensures Continues((if text.Some? then ",\"redraftSummary\":" + text.value else "") + ("}" + x), RedraftMembers(redraft), x)
  {
    hide IsTextOf, Continues, Escape;
    ClosingBrace(x);
    if text.Some? {
      MemberLast("redraftSummary", text.value, redraft.value, x);
      RedraftKey();
      hide Quote;
      assert ("," + (Quote("redraftSummary") + ":")) + text.value + ("}" + x) == "," + (Quote("redraftSummary") + (":" + (text.value + ("}" + x))));
    } else {
      assert "" + ("}" + x) == "}" + x;
    }
  }

  lemma RedraftKey()
    ensures ",\"redraftSummary\":" == "," + (Quote("redraftSummary") + ":")
  {
    hide Escape;
    PlainQuote("redraftSummary");
  }

  /** The arrays of the global context that may be halved, by their keys. */
  const CONTEXT_KEYS: seq<string> :=
    ["openItemIds", "recommendationSummaries", "dependencySummaries", "roadmapSummaries", "curationGuidance", "diagnostics"]

  lemma FirstKeysArePlain()
    ensures Plain("openItemIds") && Plain("recommendationSummaries")
  {
  }

  lemma MiddleKeysArePlain()
    ensures Plain("dependencySummaries") && Plain("roadmapSummaries")
  {
  }

  lemma LastKeysArePlain()
    ensures Plain("curationGuidance") && Plain("diagnostics")
  {
  }

  lemma ContextKeysArePlain()
    ensures |CONTEXT_KEYS| == 6 && forall k :: 0 <= k < 6 ==> Plain(CONTEXT_KEYS[k])
  {
    hide Plain;
    FirstKeysArePlain();
    MiddleKeysArePlain();
    LastKeysArePlain();
    var keys := CONTEXT_KEYS;
    assert Plain(keys[0]) && Plain(keys[1]) && Plain(keys[2]) && Plain(keys[3]) && Plain(keys[4]) && Plain(keys[5]);
  }

  lemma ContextKeysAre()
    ensures LIST_KEYS == CONTEXT_KEYS
  {
  }

  function ContextJson(fixed: seq<Member>, values: seq<seq<Json>>, redraft: Option<Json>): Json
    requires |values| == 6
  {
    Object(fixed + (ListMembers(CONTEXT_KEYS, values) + RedraftMembers(redraft)))
  }

  lemma ContextReads(c: Context, keys: seq<string>, fixed: seq<Member>, values: seq<seq<Json>>, redraft: Option<Json>, text: string)
    requires OpensObject(c.head, fixed) && |c.lists| == |values| == |keys| && AreListsOf(c.lists, values) && IsRedraftOf(c.redraft, redraft)
    requires forall k :: 0 <= k < |keys| ==> Plain(keys[k])
    requires text == c.head + ListsText(c.lists, keys) + (if c.redraft.Some? then ",\"redraftSummary\":" + c.redraft.value else "") + "}"
    ensures IsTextOf(text, Object(fixed + (ListMembers(keys, values) + RedraftMembers(redraft))))
  {
    hide IsTextOf, OpensObject, Continues, AreListsOf, IsRedraftOf, ListsText, ListMembers, Plain, RedraftMembers, ReadValue;
    var j := Object(fixed + (ListMembers(keys, values) + RedraftMembers(redraft)));
    var tail := if c.redraft.Some? then ",\"redraftSummary\":" + c.redraft.value else "";
    forall x | Ended(x)
      ensures ReadValue(text + x) == Done(j, x)
    {
      RedraftContinues(c.redraft, redraft, x);
      ListsContinue(c.lists, keys, values, tail + ("}" + x), RedraftMembers(redraft), x);
      OpenedReads(c.head, fixed, ListsText(c.lists, keys) + (tail + ("}" + x)), ListMembers(keys, values) + RedraftMembers(redraft), x);
      FourParts(c.head, ListsText(c.lists, keys), tail, x);
    }
    IsText(text, j);
  }

  lemma FourParts(head: string, lists: string, tail: string, x: string)
    ensures head + lists + tail + "}" + x == head + (lists + (tail + ("}" + x)))
  {
  }

  /** A context's text is one object: its fixed members, the six arrays, the redraft summary. */
  lemma ContextIsRead(c: Context, fixed: seq<Member>, values: seq<seq<Json>>, redraft: Option<Json>)
    requires OpensObject(c.head, fixed) && |c.lists| == |values| == 6 && AreListsOf(c.lists, values) && IsRedraftOf(c.redraft, redraft)
    ensures IsTextOf(ContextText(c), ContextJson(fixed, values, redraft))
  {
    hide IsTextOf, OpensObject, AreListsOf, IsRedraftOf, ListsText, ListMembers, Plain, RedraftMembers;
    ContextKeysArePlain();
    ContextKeysAre();
    ContextReads(c, CONTEXT_KEYS, fixed, values, redraft, ContextText(c));
  }

  // ---- The reducer input ----

  function DiagnosticJsons(diagnostics: seq<Diagnostic>): (js: seq<Json>)
    ensures |js| == |diagnostics|
  {
    seq(|diagnostics|, i requires 0 <= i < |diagnostics| => DiagnosticJson(diagnostics[i]))
  }

  lemma DiagnosticsAreRead(diagnostics: seq<Diagnostic>)
    ensures AreTextsOf(DiagnosticTexts(diagnostics), DiagnosticJsons(diagnostics))
  {
    hide IsTextOf, DiagnosticText, DiagnosticJson;
    forall i | 0 <= i < |diagnostics|
      ensures IsTextOf(DiagnosticTexts(diagnostics)[i], DiagnosticJsons(diagnostics)[i])
    {
      DiagnosticIsRead(diagnostics[i]);
    }
  }

  /** The parts of a reducer input are JSON texts: the head that of an object with some
      members, the context's likewise, and the elements of its arrays and the outcomes. */
  ghost predicate HasParts(r: Reducer, head: seq<Member>, context: Json, outcomes: seq<Json>) {
    OpensObject(r.head, head) && IsTextOf(ContextText(r.context), context) && AreTextsOf(OutcomeTexts(r.outcomes), outcomes)
  }

  /** Whatever the texts of its parts, the text that is measured against the cap is read
      as one object: the members of the head, the global context, the outcomes in order
      and the diagnostics in order. */
  lemma ReducerIsRead(r: Reducer, head: seq<Member>, context: Json, outcomes: seq<Json>)
    requires HasParts(r, head, context, outcomes)
    ensures ReadValue(ReducerText(r))
         == Done(Object(head + [Member("globalContext", context), Member("outcomes", Array(outcomes)),
                                Member("diagnostics", Array(DiagnosticJsons(r.diagnostics)))]), "")
  {
    hide IsTextOf, OpensObject, Continues, AreTextsOf, ContextText, OutcomeTexts, DiagnosticTexts, DiagnosticJsons, ReadValue, Join, Escape;
    var o, d := "[" + Join(OutcomeTexts(r.outcomes), ",") + "]", "[" + Join(DiagnosticTexts(r.diagnostics), ",") + "]";
    var diagnostics := Array(DiagnosticJsons(r.diagnostics));
    ListText(OutcomeTexts(r.outcomes), outcomes);
    DiagnosticsAreRead(r.diagnostics);
    ListText(DiagnosticTexts(r.diagnostics), DiagnosticJsons(r.diagnostics));
    var m1, m2, m3 := Member("globalContext", context), Member("outcomes", Array(outcomes)), Member("diagnostics", diagnostics);
    MemberLast("diagnostics", d, diagnostics, "");
    var t3 := "," + (Quote("diagnostics") + (":" + (d + ("}" + ""))));
    MemberContinues("outcomes", o, Array(outcomes), t3, [m3], "");
    var t2 := "," + (Quote("outcomes") + (":" + (o + t3)));
    MemberContinues("globalContext", ContextText(r.context), context, t2, [m2] + [m3], "");
    var t1 := "," + (Quote("globalContext") + (":" + (ContextText(r.context) + t2)));
    OpenedReads(r.head, head, t1, [m1] + ([m2] + [m3]), "");
    assert [m1] + ([m2] + [m3]) == [m1, m2, m3];
    ReducerPieces(r, o, d);
  }

  lemma ContextKey()
    ensures ",\"globalContext\":" == "," + (Quote("globalContext") + ":")
  {
    hide Escape;
    PlainQuote("globalContext");
  }

  lemma OutcomesKey()
    ensures ",\"outcomes\":[" == "," + (Quote("outcomes") + ":") + "["
  {
    hide Escape;
    PlainQuote("outcomes");
  }

  lemma DiagnosticsKey()
    ensures "],\"diagnostics\":[" == "]" + ("," + (Quote("diagnostics") + ":")) + "["
  {
    hide Escape;
    PlainQuote("diagnostics");
  }

  lemma ReducerPieces(r: Reducer, o: string, d: string)
    requires o == "[" + Join(OutcomeTexts(r.outcomes), ",") + "]" && d == "[" + Join(DiagnosticTexts(r.diagnostics), ",") + "]"
    ensures ReducerText(r)
         == r.head + ("," + (Quote("globalContext") + (":" + (ContextText(r.context)
            + ("," + (Quote("outcomes") + (":" + (o + ("," + (Quote("diagnostics") + (":" + (d + ("}" + "")))))))))))))
  {
    ContextKey();
    OutcomesKey();
    DiagnosticsKey();
    hide ContextText, OutcomeTexts, DiagnosticTexts, Join, Quote;
    assert "]}" == "]" + ("}" + "");
    Bracketed(r.head, ",\"globalContext\":", ContextText(r.context), ",\"outcomes\":[", Join(OutcomeTexts(r.outcomes), ","), "],\"diagnostics\":[",
              Join(DiagnosticTexts(r.diagnostics), ","), "]}", Quote("globalContext"), Quote("outcomes"), Quote("diagnostics"));
  }

  /** Concatenation, bracketed from the left and from the right. */
  lemma Bracketed(head: string, a: string, context: string, b: string, outcomes: string, c: string, diagnostics: string, end: string,
                  k1: string, k2: string, k3: string)
    requires a == "," + (k1 + ":") && b == "," + (k2 + ":") + "[" && c == "]" + ("," + (k3 + ":")) + "[" && end == "]" + ("}" + "")
    ensures head + a + context + b + outcomes + c + diagnostics + end
         == head + ("," + (k1 + (":" + (context + ("," + (k2 + (":" + ("[" + outcomes + "]" + ("," + (k3 + (":" + ("[" + diagnostics + "]" + ("}" + "")))))))))))))
  {
  }
}
