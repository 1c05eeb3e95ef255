/** The reducer input never exceeds its byte cap, whichever way it is returned. */
module ReducerByteCap {
  import opened Text
  import opened GreedyPacking
  import opened NameChunks
  import opened ReducerInput
  import opened ReducerSelection

  // ---- Sizes of diagnostics ----

  /** Everything in a diagnostic's text except its message. */
  function DiagnosticFrame(code: string, path: Option<string>): nat {
    Utf8Length("{\"code\":" + Quote(code) + ",\"severity\":\"warning\",\"message\":" + "\"")
    + Utf8Length("\"" + (if path.Some? then ",\"path\":" + Quote(path.value) else "") + "}")
  }

  lemma DiagnosticBytes(d: Diagnostic)
    ensures Utf8Length(DiagnosticText(d)) == DiagnosticFrame(d.code, d.path) + EscapedBytes(d.message)
  {
    hide Escape, Utf8Length;
    var front := "{\"code\":" + Quote(d.code) + ",\"severity\":\"warning\",\"message\":";
    var path := if d.path.Some? then ",\"path\":" + Quote(d.path.value) else "";
    var body := Escape(d.message);
    assert DiagnosticText(d) == (front + "\"") + body + ("\"" + path + "}");
    Utf8LengthAppend((front + "\"") + body, "\"" + path + "}");
    Utf8LengthAppend(front + "\"", body);
  }

  /** The note about dropped outcomes gets no longer when "pending" becomes a count. */
  lemma DroppedNoteBytes(observed: nat, retained: nat)
    requires retained < Pow10(7)
    ensures Utf8Length(DiagnosticText(OutcomesDropped(observed, Decimal(retained))))
         <= Utf8Length(DiagnosticText(OutcomesDropped(observed, "pending")))
  {
    hide DiagnosticText, DiagnosticFrame, EscapedBytes, Decimal, DroppedFront, DroppedBack;
    MessageBytes(DroppedFront(observed), Decimal(retained), DroppedBack());
    MessageBytes(DroppedFront(observed), "pending", DroppedBack());
    PendingBytes();
    DecimalLength(retained, 7);
    DecimalBytes(retained);
    DiagnosticBytes(OutcomesDropped(observed, Decimal(retained)));
    DiagnosticBytes(OutcomesDropped(observed, "pending"));
  }

  lemma PendingBytes()
    ensures EscapedBytes("pending") == 7
  {
    hide EscapedBytes;
    PlainEscapedBytes("pending");
  }

  lemma MessageBytes(front: string, middle: string, back: string)
    ensures EscapedBytes(front + middle + back) == EscapedBytes(front) + EscapedBytes(middle) + EscapedBytes(back)
  {
    EscapedBytesAppend(front + middle, back);
    EscapedBytesAppend(front, middle);
  }

  lemma DiagnosticTextsAppend(a: seq<Diagnostic>, b: seq<Diagnostic>)
    ensures DiagnosticTexts(a + b) == DiagnosticTexts(a) + DiagnosticTexts(b)
    ensures Weight(DiagnosticTexts(a + b)) == Weight(DiagnosticTexts(a)) + Weight(DiagnosticTexts(b))
  {
    assert DiagnosticTexts(a + b) == DiagnosticTexts(a) + DiagnosticTexts(b);
    WeightAppend(DiagnosticTexts(a), DiagnosticTexts(b));
  }

  // ---- Sizes of selections ----

  lemma {:induction false} SelectedWeight(entries: seq<Entry>, kept: seq<bool>)
    requires |kept| == |entries|
    ensures Weight(OutcomeTexts(Selected(OutcomesOf(entries), kept))) == Load(Weights(entries), kept)
    ensures |Selected(OutcomesOf(entries), kept)| <= |entries|
  {
    if entries != [] {
      SelectedWeight(entries[1..], kept[1..]);
      assert OutcomesOf(entries)[1..] == OutcomesOf(entries[1..]);
      assert Weights(entries)[1..] == Weights(entries[1..]);
      var rest := Selected(OutcomesOf(entries[1..]), kept[1..]);
      if kept[0] {
        assert OutcomeTexts([entries[0].outcome] + rest) == [entries[0].outcome.text] + OutcomeTexts(rest);
      } else {
        assert [] + rest == rest;
      }
    }
  }

  function WithoutLastComma(load: nat): nat {
    if load == 0 then 0 else load - 1
  }

  /** Size of a reducer whose outcomes are a selection of the entries. */
  lemma SelectionBytes(head: string, context: Context, entries: seq<Entry>, kept: seq<bool>, diagnostics: seq<Diagnostic>)
    requires |kept| == |entries|
    ensures Bytes(Reducer(head, context, Selected(OutcomesOf(entries), kept), diagnostics))
         == FixedBytes(head, context) + ListBytes(DiagnosticTexts(diagnostics)) + WithoutLastComma(Load(Weights(entries), kept))
    ensures |Selected(OutcomesOf(entries), kept)| <= Load(Weights(entries), kept)
  {
    hide FixedBytes, DiagnosticTexts, Bytes, OutcomeTexts, Weights, OutcomesOf;
    var outcomes := Selected(OutcomesOf(entries), kept);
    BytesAreAdditive(Reducer(head, context, outcomes, diagnostics));
    SelectedWeight(entries, kept);
    ListBytesIsWeight(OutcomeTexts(outcomes));
  }

  /** A fitted attempt is within the cap, with the note still pending. */
  lemma FittedIsWithinCap(env: Env, omitted: set<nat>)
    requires Try(env, omitted).Fitted?
    ensures var a := Try(env, omitted);
            && Bytes(Reducer(env.head, env.context, Selected(OutcomesOf(env.entries), a.kept), env.base + OmissionDiagnostics(a.chunks))) <= CAP
            && |Selected(OutcomesOf(env.entries), a.kept)| <= CAP + 1
  {
    hide NamesOf, NamingChunks, Weights, Omitted, Pick, FixedBytes, Bytes, DiagnosticTexts, ListBytes;
    var a := Try(env, omitted);
    var room := Room(env, a.chunks);
    PickFits(Weights(env.entries), room);
    SelectionBytes(env.head, env.context, env.entries, a.kept, env.base + OmissionDiagnostics(a.chunks));
  }

  /** What the loop leaves behind is the outcome of one of its attempts. */
  lemma {:induction false} SettledByAttempt(env: Env, omitted: set<nat>, attempts: nat)
    requires attempts > 0 && Settle(env, omitted, attempts).Settled?
    ensures var s := Settle(env, omitted, attempts);
            && Try(env, s.named).Fitted?
            && Try(env, s.named).chunks == s.chunks && Try(env, s.named).kept == s.kept
            && (s.converged <==> Omitted(env.entries, s.kept) == s.named)
    decreases attempts
  {
    hide Room, NamesOf, NamingChunks, Weights, Omitted, Pick;
    var a := Try(env, omitted);
    if a.next != omitted && attempts > 1 {
      SettledByAttempt(env, a.next, attempts - 1);
    }
  }

  lemma SmallerNote(before: seq<Diagnostic>, note: Diagnostic, pending: Diagnostic, after: seq<Diagnostic>)
    requires Utf8Length(DiagnosticText(note)) <= Utf8Length(DiagnosticText(pending))
    ensures ListBytes(DiagnosticTexts(before + [note] + after)) <= ListBytes(DiagnosticTexts(before + [pending] + after))
    ensures ListBytes(DiagnosticTexts(before + after)) <= ListBytes(DiagnosticTexts(before + [pending] + after))
  {
    hide DiagnosticText, ListBytes;
    DiagnosticTextsAppend(before + [note], after);
    DiagnosticTextsAppend(before, [note]);
    DiagnosticTextsAppend(before + [pending], after);
    DiagnosticTextsAppend(before, [pending]);
    DiagnosticTextsAppend(before, after);
    assert DiagnosticTexts([note])[1..] == [] && DiagnosticTexts([pending])[1..] == [];
    ListBytesIsWeight(DiagnosticTexts(before + [note] + after));
    ListBytesIsWeight(DiagnosticTexts(before + [pending] + after));
    ListBytesIsWeight(DiagnosticTexts(before + after));
  }

  lemma PruneIsWithinCap(r: Reducer, entries: seq<Entry>)
    requires Prune(r, entries).Ok?
    ensures Bytes(Prune(r, entries).reducer) <= CAP
  {
    hide Try, Settle, DiagnosticTexts, ListBytes, FixedBytes, Bytes, OmissionDiagnostics, OutcomesDropped, OutcomesOf, Selected, NamesOf, Omitted;
    var env := PruneEnv(r, entries);
    var s := Search(r, entries);
    SettledByAttempt(env, {}, |entries| + 2);
    FittedIsWithinCap(env, s.named);
    var outcomes := Selected(OutcomesOf(entries), s.kept);
    var extra := OmissionDiagnostics(s.chunks);
    SevenDigits();
    DroppedNoteBytes(|entries|, |outcomes|);
    SmallerNote(r.diagnostics, OutcomesDropped(|entries|, Decimal(|outcomes|)), OutcomesDropped(|entries|, "pending"), extra);
    assert r.diagnostics + [] == r.diagnostics;
    BytesAreAdditive(Prune(r, entries).reducer);
    BytesAreAdditive(Reducer(env.head, env.context, outcomes, env.base + extra));
  }

  lemma SevenDigits()
    ensures CAP + 1 < Pow10(7)
  {
    assert Pow10(1) == 10 && Pow10(2) == 100 && Pow10(3) == 1000;
    assert Pow10(4) == 10000 && Pow10(5) == 100000;
    assert Pow10(6) == 1000000;
  }

  /** Byte cap: every normal return is within the cap. */
  lemma BuildIsWithinCap(head: string, context: Context, outcomes: seq<Outcome>)
    requires Build(head, context, outcomes).Ok?
    ensures Bytes(Build(head, context, outcomes).reducer) <= CAP
  {
    var compacted := Compacted(Reducer(head, context, outcomes, []));
    if Bytes(Reducer(head, context, outcomes, [])) > CAP && Bytes(compacted) > CAP {
      PruneIsWithinCap(compacted, CompactAll(Prioritize(outcomes)));
    }
  }

  // ---- Pruning always drops something ----

  lemma {:induction false} SelectedAll<T>(items: seq<T>, kept: seq<bool>)
    requires |kept| == |items|
    ensures |Selected(items, kept)| <= |items|
    ensures |Selected(items, kept)| == |items| ==> Selected(items, kept) == items
  {
    if items != [] {
      SelectedAll(items[1..], kept[1..]);
    }
  }

  /** If the compacted reducer did not fit, pruning retains strictly fewer outcomes
      than were observed, so the note about dropped outcomes is never removed. */
  lemma PruneDropsSomething(r: Reducer, entries: seq<Entry>)
    requires r.outcomes == OutcomesOf(entries) && Bytes(r) > CAP && Prune(r, entries).Ok?
    ensures |Prune(r, entries).reducer.outcomes| < |entries|
  {
    hide Try, Settle, DiagnosticTexts, ListBytes, FixedBytes, Bytes, OmissionDiagnostics, OutcomesDropped, OutcomesOf, Selected, NamesOf, Omitted;
    var env := PruneEnv(r, entries);
    var s := Search(r, entries);
    SettledByAttempt(env, {}, |entries| + 2);
    FittedIsWithinCap(env, s.named);
    var outcomes := Selected(OutcomesOf(entries), s.kept);
    SelectedAll(OutcomesOf(entries), s.kept);
    if |outcomes| == |entries| {
      var extra := OmissionDiagnostics(s.chunks);
      BytesAreAdditive(r);
      BytesAreAdditive(Reducer(env.head, env.context, outcomes, env.base + extra));
      DiagnosticTextsAppend(env.base, extra);
      DiagnosticTextsAppend(r.diagnostics, [OutcomesDropped(|entries|, "pending")]);
      ListBytesIsWeight(DiagnosticTexts(r.diagnostics));
      ListBytesIsWeight(DiagnosticTexts(env.base + extra));
      assert false;
    }
  }
}
