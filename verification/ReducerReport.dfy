/** What buildBacklogCurationReducerInput returns, in the terms of its caller: which
    outcomes outrank which, how the context is cut, and what the diagnostics say. */
module ReducerReport {
  import opened Text
  import opened GreedyPacking
  import opened NameChunks
  import opened ReducerInput
  import opened ReducerSelection
  import opened ReducerByteCap
  import opened ReducerConvergence
  import opened ReducerLoop

  // ---- Ranks ----

  predicate SettledVerdict(f: Finding) {
    f.verdict == Some(Partial) || f.verdict == Some(StillNeeded) || f.verdict == Some(StaleInvalid)
  }

  /** The nine classes, from the one that is retained first to the one retained last. */
  predicate InClass(o: Outcome, rank: nat) {
    match o.body
    case Found(f, _) =>
      if f.disposition == Change then
        rank == if f.verdict == Some(Shipped) || f.verdict == Some(Superseded) then 0 else 1
      else if f.disposition == NeedsInput || f.verdict == Some(NeedsProductInput) then rank == 2
      else if SettledVerdict(f) then rank == 3
      else rank == if f.signals > 0 then 4 else 5
    case InvalidFinding => rank == 6
    case ItemAgentFailure => rank == 6
    case OversizedPacket => rank == 7
    case Cancelled => rank == 8
  }

  lemma ClassIsPriority(o: Outcome, rank: nat)
    ensures InClass(o, rank) <==> Priority(o) == rank
  {
  }

  /** Entries stand in the order of the classes, and within a class in the order given. */
  lemma EntriesAreRanked(outcomes: seq<Outcome>, i: nat, j: nat, a: nat, b: nat)
    requires i < j < |Prioritize(outcomes)|
    ensures var e, f := Prioritize(outcomes)[i], Prioritize(outcomes)[j];
            && e.originalIndex < |outcomes| && f.originalIndex < |outcomes| && e.originalIndex != f.originalIndex
            && e.outcome == outcomes[e.originalIndex] && f.outcome == outcomes[f.originalIndex]
            && (InClass(e.outcome, a) && InClass(f.outcome, b) ==> a < b || (a == b && e.originalIndex < f.originalIndex))
  {
    PrioritizeIsStableSort(outcomes);
    PrioritizedEntry(outcomes, i);
    PrioritizedEntry(outcomes, j);
    ClassIsPriority(Prioritize(outcomes)[i].outcome, a);
    ClassIsPriority(Prioritize(outcomes)[j].outcome, b);
    assert Before(Prioritize(outcomes)[i], Prioritize(outcomes)[j]);
    hide InClass, Priority, Prioritize;
    SameEntry(outcomes, i, j);
  }

  lemma SameEntry(outcomes: seq<Outcome>, i: nat, j: nat)
    requires i < j < |Prioritize(outcomes)|
    ensures Prioritize(outcomes)[i].originalIndex != Prioritize(outcomes)[j].originalIndex
  {
    PrioritizeIsStableSort(outcomes);
    PrioritizedEntry(outcomes, i);
    PrioritizedEntry(outcomes, j);
    assert Before(Prioritize(outcomes)[i], Prioritize(outcomes)[j]);
  }

  // ---- What is retained ----

  /** The outcomes that were given, at these places, in their compacted form: for a protected
      finding without recommendation signals, for another one with at most two. */
  ghost predicate CompactedAt(outcomes: seq<Outcome>, at: seq<nat>, retained: seq<Outcome>) {
    && |at| == |retained|
    && forall k :: 0 <= k < |at| ==>
         && at[k] < |outcomes|
         && retained[k].itemId == outcomes[at[k]].itemId && retained[k].text == outcomes[at[k]].compactText
         && retained[k].body.Found? == outcomes[at[k]].body.Found?
         && (!retained[k].body.Found? ==> retained[k].body == outcomes[at[k]].body)
         && (retained[k].body.Found? ==> SameDecision(outcomes[at[k]], retained[k]))
  }

  ghost predicate SameDecision(o: Outcome, c: Outcome)
    requires o.body.Found? && c.body.Found?
  {
    var f, g := o.body.finding, c.body.finding;
    && c.body.fromCache == o.body.fromCache && g.disposition == f.disposition && g.verdict == f.verdict
    && g.signals == if InClass(o, 0) then 0 else if f.signals < 2 then f.signals else 2
  }

  /** Ascending by class, then by place. */
  ghost predicate InRankOrder(outcomes: seq<Outcome>, at: seq<nat>) {
    forall k, l, a, b :: 0 <= k < l < |at| && at[k] < |outcomes| && at[l] < |outcomes| && InClass(outcomes[at[k]], a) && InClass(outcomes[at[l]], b)
      ==> a < b || (a == b && at[k] < at[l])
  }

  function IndexesOf(entries: seq<Entry>): (at: seq<nat>)
    ensures |at| == |entries|
  {
    seq(|entries|, i requires 0 <= i < |entries| => entries[i].originalIndex)
  }

  lemma CompactIs(o: Outcome, c: Outcome)
    requires c == Compact(o)
    ensures c.itemId == o.itemId && c.text == o.compactText && c.body.Found? == o.body.Found?
    ensures !c.body.Found? ==> c.body == o.body
    ensures c.body.Found? ==> SameDecision(o, c)
  {
  }

  lemma AllAreRanked(outcomes: seq<Outcome>)
    ensures InRankOrder(outcomes, IndexesOf(Prioritize(outcomes)))
    ensures CompactedAt(outcomes, IndexesOf(Prioritize(outcomes)), OutcomesOf(CompactAll(Prioritize(outcomes))))
  {
    var entries := Prioritize(outcomes);
    var at := IndexesOf(entries);
    hide InClass, Priority, Prioritize, Compact;
    forall k, l, a, b | 0 <= k < l < |at| && at[k] < |outcomes| && at[l] < |outcomes| && InClass(outcomes[at[k]], a) && InClass(outcomes[at[l]], b)
      ensures a < b || (a == b && at[k] < at[l])
    {
      EntriesAreRanked(outcomes, k, l, a, b);
    }
    forall k | 0 <= k < |at|
      ensures at[k] < |outcomes| && entries[k].outcome == outcomes[at[k]]
      ensures OutcomesOf(CompactAll(entries))[k] == Compact(outcomes[at[k]])
    {
      PrioritizedEntry(outcomes, k);
    }
    forall o
      ensures Compact(o).itemId == o.itemId && Compact(o).text == o.compactText && Compact(o).body.Found? == o.body.Found?
      ensures !Compact(o).body.Found? ==> Compact(o).body == o.body
      ensures Compact(o).body.Found? ==> SameDecision(o, Compact(o))
    {
      CompactIs(o, Compact(o));
    }
  }

  function Shifted(places: seq<nat>): (later: seq<nat>)
    ensures |later| == |places| && forall k :: 0 <= k < |places| ==> later[k] == places[k] + 1
  {
    seq(|places|, k requires 0 <= k < |places| => places[k] + 1)
  }

  ghost predicate ArePlaces<T(!new)>(items: seq<T>, places: seq<nat>, selected: seq<T>) {
    && |places| == |selected|
    && (forall k :: 0 <= k < |places| ==> places[k] < |items| && selected[k] == items[places[k]])
    && (forall k, l :: 0 <= k < l < |places| ==> places[k] < places[l])
  }

  lemma PlacesBehind<T(!new)>(items: seq<T>, places: seq<nat>, selected: seq<T>)
    requires items != [] && ArePlaces(items[1..], places, selected)
    ensures ArePlaces(items, Shifted(places), selected)
    ensures ArePlaces(items, [0] + Shifted(places), [items[0]] + selected)
  {
    hide Shifted;
    forall k | 0 <= k < |places|
      ensures items[Shifted(places)[k]] == selected[k]
    {
      assert items[1..][places[k]] == items[places[k] + 1];
    }
  }

  lemma {:induction false} SelectedAre<T(!new)>(items: seq<T>, kept: seq<bool>) returns (places: seq<nat>)
    requires |kept| == |items|
    ensures ArePlaces(items, places, Selected(items, kept))
  {
    places := [];
    if items != [] {
      hide ArePlaces;
      var rest := SelectedAre(items[1..], kept[1..]);
      var selected := Selected(items[1..], kept[1..]);
      PlacesBehind(items, rest, selected);
      places := if kept[0] then [0] + Shifted(rest) else Shifted(rest);
      assert [] + selected == selected;
    }
  }

  /** A selection of the entries is as well ranked and compacted as all of them. */
  lemma SelectionIsRanked(outcomes: seq<Outcome>, all: seq<nat>, compacted: seq<Outcome>, kept: seq<bool>) returns (at: seq<nat>)
    requires CompactedAt(outcomes, all, compacted) && InRankOrder(outcomes, all) && |kept| == |compacted|
    ensures CompactedAt(outcomes, at, Selected(compacted, kept)) && InRankOrder(outcomes, at)
  {
    hide InClass, SameDecision;
    var places := SelectedAre(compacted, kept);
    at := seq(|places|, k requires 0 <= k < |places| => all[places[k]]);
  }

  /** What comes back: the input itself when it fits, and otherwise compacted outcomes in
      the order of their classes; all of them when that fits. */
  lemma RetainedAreRanked(head: string, context: Context, outcomes: seq<Outcome>) returns (at: seq<nat>)
    ensures var whole := Reducer(head, context, outcomes, []);
            var result := Build(head, context, outcomes);
            && (Bytes(whole) <= CAP ==> result == Ok(whole))
            && (Bytes(whole) > CAP && result.Ok? ==>
                  && CompactedAt(outcomes, at, result.reducer.outcomes) && InRankOrder(outcomes, at)
                  && (!NeedsPruning(head, context, outcomes) ==> |at| == |outcomes|))
  {
    hide Bytes, InClass, Priority, Prioritize, Compact, Shrink, CompactedAt, InRankOrder, Search, CapExceeded, ContextTruncated, OutcomesDropped, OmissionDiagnostics;
    AllAreRanked(outcomes);
    PrioritizeIsStableSort(outcomes);
    var entries := CompactAll(Prioritize(outcomes));
    at := IndexesOf(Prioritize(outcomes));
    if NeedsPruning(head, context, outcomes) && Build(head, context, outcomes).Ok? {
      var r := Compacted(Reducer(head, context, outcomes, []));
      at := SelectionIsRanked(outcomes, at, OutcomesOf(entries), Search(r, entries).kept);
    }
  }

  // ---- How the context is cut ----

  /** The first of the lists with the most bytes loses its back half; an odd one keeps the
      smaller half. */
  ghost predicate HalvedAt(lists: seq<seq<string>>, next: seq<seq<string>>, k: nat) {
    && k < |lists| == |next| && lists[k] != []
    && (forall i :: 0 <= i < |lists| && i != k ==> next[i] == lists[i])
    && next[k] <= lists[k] && 2 * |next[k]| <= |lists[k]| <= 2 * |next[k]| + 1
    && (forall i :: 0 <= i < |lists| && lists[i] != [] ==> ListBytes(lists[i]) <= ListBytes(lists[k]))
    && (forall i :: 0 <= i < k && lists[i] != [] ==> ListBytes(lists[i]) < ListBytes(lists[k]))
  }

  ghost predicate Halved(lists: seq<seq<string>>, next: seq<seq<string>>) {
    exists k: nat :: HalvedAt(lists, next, k)
  }

  lemma LargestIsHalved(lists: seq<seq<string>>)
    requires exists i :: 0 <= i < |lists| && lists[i] != []
    ensures Halved(lists, HalveLargest(lists))
  {
    hide ListBytes;
    var k := Largest(lists, |lists|);
    assert HalvedAt(lists, HalveLargest(lists), k);
  }

  function WithLists(r: Reducer, lists: seq<seq<string>>): Reducer {
    r.(context := r.context.(lists := lists))
  }

  ghost predicate AllEmpty(lists: seq<seq<string>>) {
    forall i :: 0 <= i < |lists| ==> lists[i] == []
  }

  /** The lists are halved one at a time, as long as the reducer does not fit and there is
      something to halve, and only then the summary goes. */
  ghost predicate Cutting(r: Reducer, steps: seq<seq<seq<string>>>) {
    && steps != [] && steps[0] == r.context.lists
    && (forall i :: 0 <= i < |steps| - 1 ==> Halved(steps[i], steps[i + 1]) && Bytes(WithLists(r, steps[i])) > CAP)
    && (Bytes(WithLists(r, steps[|steps| - 1])) <= CAP || AllEmpty(steps[|steps| - 1]))
  }

  lemma {:induction false} ContextIsCut(r: Reducer) returns (steps: seq<seq<seq<string>>>)
    ensures Cutting(r, steps)
    ensures Shrink(r) == r.context.(lists := steps[|steps| - 1],
                                    redraft := if Bytes(WithLists(r, steps[|steps| - 1])) <= CAP then r.context.redraft else None)
    decreases TotalEntries(r.context.lists)
  {
    hide Bytes, HalveLargest, Halved;
    assert WithLists(r, r.context.lists) == r;
    if Bytes(r) > CAP && exists i | 0 <= i < |r.context.lists| :: r.context.lists[i] != [] {
      LargestIsHalved(r.context.lists);
      var next := WithLists(r, HalveLargest(r.context.lists));
      var more := ContextIsCut(next);
      steps := [r.context.lists] + more;
      forall lists
        ensures WithLists(next, lists) == WithLists(r, lists)
      {
      }
    } else {
      steps := [r.context.lists];
    }
  }

  // ---- Numerals ----

  /** The number that decimal digits stand for. */
  function ValueOf(digits: string): (n: int) {
    if digits == [] then 0 else 10 * ValueOf(digits[..|digits| - 1]) + (digits[|digits| - 1] as int - '0' as int)
  }

  lemma DigitIs(d: nat)
    requires d < 10
    ensures Digit(d) as int - '0' as int == d
  {
    var digits := "0123456789";
    assert digits[d] == Digit(d);
  }

  lemma {:induction false} DecimalReads(n: nat)
    ensures ValueOf(Decimal(n)) == n && (n > 0 ==> Decimal(n)[0] != '0')
  {
    if n < 10 {
      DigitIs(n);
      assert Decimal(n)[..0] == [];
    } else {
      DecimalReads(n / 10);
      DigitIs(n % 10);
      assert Decimal(n)[..|Decimal(n)| - 1] == Decimal(n / 10);
    }
  }

  // ---- What the diagnostics say ----

  /** The name of a protected finding: its item and its verdict. */
  ghost predicate Names(name: string, o: Outcome) {
    && InClass(o, 0)
    && name == o.itemId + ":" + if o.body.finding.verdict == Some(Shipped) then "shipped" else "superseded"
  }

  lemma NameOfNames(o: Outcome)
    requires Protected(o)
    ensures Names(NameOf(o), o)
  {
  }

  /** One omission diagnostic. */
  ghost predicate SaysOmitted(d: Diagnostic, place: nat, names: seq<string>) {
    && d.code == "reducer-input-protected-terminal-omitted"
    && d.path == Some("outcomes/protected-terminal-omissions/" + Decimal(place))
    && d.message == "Protected terminal findings omitted by reducer byte caps: " + Join(names, ", ") + "."
  }

  /** The text of the byte diagnostic, of the context diagnostic and of the note. */
  ghost predicate SaysBytes(d: Diagnostic, bytes: nat) {
    && d.code == "reducer-input-byte-cap-exceeded" && d.path == None
    && d.message == "Reducer input is " + Decimal(bytes) + " bytes; cap is " + Decimal(140000) + "."
  }

  ghost predicate SaysTruncated(d: Diagnostic) {
    && d.code == "reducer-input-global-context-truncated" && d.path == None
    && d.message == "Reducer global context was truncated to fit the byte cap."
  }

  ghost predicate SaysDropped(d: Diagnostic, observed: nat, retained: nat) {
    && d.code == "reducer-input-outcomes-dropped" && d.path == None
    && d.message == "Reducer input outcomes were semantically pruned to fit the byte cap; observed " + Decimal(observed)
                    + ", retained " + Decimal(retained)
                    + ". Protected terminal findings are retained first; omitted protected terminals are named separately."
  }

  /** Every name is that of a protected finding that was given. */
  ghost predicate NamesGiven(names: seq<string>, outcomes: seq<Outcome>) {
    forall name :: name in names ==> exists o :: o in outcomes && Names(name, o)
  }

  ghost predicate NamedAs(c: Outcome, outcomes: seq<Outcome>) {
    Protected(c) ==> exists o :: o in outcomes && Protected(o) && NameOf(o) == NameOf(c)
  }

  lemma NamedAsIs(c: Outcome, outcomes: seq<Outcome>)
    requires NamedAs(c, outcomes) && Protected(c)
    ensures exists o :: o in outcomes && Protected(o) && NameOf(o) == NameOf(c)
  {
  }

  lemma {:induction false} NamedAreGiven(entries: seq<Entry>, omitted: set<nat>, outcomes: seq<Outcome>)
    requires forall i :: 0 <= i < |entries| ==> NamedAs(entries[i].outcome, outcomes)
    ensures NamesGiven(NamesOf(entries, omitted), outcomes)
  {
    hide Protected, NameOf, Names, NamedAs;
    if entries != [] {
      assert forall i :: 0 <= i < |entries[1..]| ==> entries[1..][i] == entries[i + 1];
      NamedAreGiven(entries[1..], omitted, outcomes);
      assert NamedAs(entries[0].outcome, outcomes);
      if Protected(entries[0].outcome) {
        NamedAsIs(entries[0].outcome, outcomes);
        var o :| o in outcomes && Protected(o) && NameOf(o) == NameOf(entries[0].outcome);
        NameOfNames(o);
      }
    }
  }

  /** The diagnostics of a pruned reducer. */
  ghost predicate SaysPruned(reducer: Reducer, bytes: nat, outcomes: seq<Outcome>, chunks: seq<seq<string>>) {
    && |reducer.diagnostics| == 3 + |chunks|
    && SaysBytes(reducer.diagnostics[0], bytes) && SaysTruncated(reducer.diagnostics[1])
    && SaysDropped(reducer.diagnostics[2], |outcomes|, |reducer.outcomes|)
    && (forall i :: 0 <= i < |chunks| ==> SaysOmitted(reducer.diagnostics[3 + i], i + 1, chunks[i]))
    && NamesGiven(Flatten(chunks), outcomes)
  }

  lemma OmissionsSay(chunks: seq<seq<string>>, i: nat)
    requires i < |chunks|
    ensures SaysOmitted(OmissionDiagnostics(chunks)[i], i + 1, chunks[i])
  {
    hide Decimal;
  }

  lemma FirstTwoSay(bytes: nat)
    ensures SaysBytes(CapExceeded(bytes), bytes) && SaysTruncated(ContextTruncated())
  {
    hide Decimal;
  }

  lemma NoteSays(observed: nat, retained: nat)
    ensures SaysDropped(OutcomesDropped(observed, Decimal(retained)), observed, retained)
  {
    hide Decimal;
    assert OutcomesDropped(observed, Decimal(retained)).message
        == "Reducer input outcomes were semantically pruned to fit the byte cap; observed " + Decimal(observed) + ", retained "
           + Decimal(retained) + ". Protected terminal findings are retained first; omitted protected terminals are named separately.";
  }

  lemma EntriesAreGiven(outcomes: seq<Outcome>, omitted: set<nat>)
    ensures NamesGiven(NamesOf(CompactedEntries(outcomes), omitted), outcomes)
  {
    PrioritizeIsStableSort(outcomes);
    var entries := CompactedEntries(outcomes);
    hide Prioritize, Priority, Protected, NameOf;
    forall i | 0 <= i < |entries|
      ensures NamedAs(entries[i].outcome, outcomes)
    {
      PrioritizedEntry(outcomes, i);
      var o := outcomes[entries[i].originalIndex];
      assert o in outcomes;
      CompactKeepsName(o);
    }
    hide NamedAs;
    NamedAreGiven(entries, omitted, outcomes);
  }

  lemma CompactKeepsName(o: Outcome)
    ensures Protected(Compact(o)) ==> Protected(o) && NameOf(o) == NameOf(Compact(o))
  {
  }

  /** The diagnostics that pruning returns. */
  lemma PruneSays(r: Reducer, entries: seq<Entry>, bytes: nat, outcomes: seq<Outcome>) returns (chunks: seq<seq<string>>)
    requires Prune(r, entries).Ok? && r.diagnostics == [CapExceeded(bytes), ContextTruncated()]
    requires |entries| == |outcomes| && |Prune(r, entries).reducer.outcomes| < |outcomes|
    requires forall omitted :: NamesGiven(NamesOf(entries, omitted), outcomes)
    ensures SaysPruned(Prune(r, entries).reducer, bytes, outcomes, chunks)
  {
    hide CapExceeded, ContextTruncated, SaysBytes, SaysTruncated, SaysDropped, SaysOmitted, NamesGiven, NamesOf, OutcomesDropped, OmissionDiagnostics, Search, Selected, OutcomesOf;
    FirstTwoSay(bytes);
    chunks := Search(r, entries).chunks;
    SearchNames(r, entries);
    NoteSays(|outcomes|, |Prune(r, entries).reducer.outcomes|);
    forall i | 0 <= i < |chunks|
      ensures SaysOmitted(OmissionDiagnostics(chunks)[i], i + 1, chunks[i])
    {
      OmissionsSay(chunks, i);
    }
  }

  /** What the diagnostics say: the size that was too large, that the context was cut, how
      many outcomes there were and how many are left, and the names of omitted findings. */
  lemma DiagnosticsSay(head: string, context: Context, outcomes: seq<Outcome>) returns (chunks: seq<seq<string>>)
    requires NeedsPruning(head, context, outcomes)
    ensures var whole, result := Reducer(head, context, outcomes, []), Build(head, context, outcomes);
            && (result.Ok? ==> SaysPruned(result.reducer, Bytes(whole), outcomes, chunks))
            && (result.CannotName? ==> NamesGiven(result.names, outcomes))
  {
    hide Bytes, Priority, Prioritize, Shrink, CapExceeded, ContextTruncated, NamesGiven, NamesOf, Prune, SaysPruned;
    var r, entries := Compacted(Reducer(head, context, outcomes, [])), CompactedEntries(outcomes);
    PrioritizeIsStableSort(outcomes);
    forall omitted
      ensures NamesGiven(NamesOf(entries, omitted), outcomes)
    {
      EntriesAreGiven(outcomes, omitted);
    }
    chunks := [];
    if Build(head, context, outcomes).Ok? {
      BuildDropsSomething(head, context, outcomes);
      chunks := PruneSays(r, entries, Bytes(Reducer(head, context, outcomes, [])), outcomes);
    } else {
      CannotNameGiven(r, entries);
    }
  }

  lemma CannotNameGiven(r: Reducer, entries: seq<Entry>)
    requires Prune(r, entries).CannotName?
    ensures exists omitted :: Prune(r, entries).names == NamesOf(entries, omitted)
  {
    hide Search, NamesOf;
  }

  /** Without pruning there are two diagnostics, or none when everything fitted. */
  lemma UnprunedSays(head: string, context: Context, outcomes: seq<Outcome>)
    requires !NeedsPruning(head, context, outcomes)
    ensures var bytes, result := Bytes(Reducer(head, context, outcomes, [])), Build(head, context, outcomes);
            && result.Ok?
            && (bytes <= CAP ==> result.reducer.diagnostics == [])
            && (bytes > CAP ==>
                  && |result.reducer.diagnostics| == 2
                  && SaysBytes(result.reducer.diagnostics[0], bytes) && SaysTruncated(result.reducer.diagnostics[1]))
  {
    hide Bytes, Prioritize, Shrink, CapExceeded, ContextTruncated, SaysBytes, SaysTruncated;
    FirstTwoSay(Bytes(Reducer(head, context, outcomes, [])));
  }

  // ---- When nothing is returned ----

  /** An attempt fails exactly when its names do not fit in the messages that are left, or
      the diagnostics leave no room even for a reducer without outcomes. */
  lemma AttemptFailsIff(env: Env, omitted: set<nat>)
    ensures var names, slots := NamesOf(env.entries, omitted), 40 - |env.base|;
            (Try(env, omitted).CannotFit?
             <==> || NamingChunks(names, slots).None?
                  || Bytes(Reducer(env.head, env.context, [], env.base + OmissionDiagnostics(NamingChunks(names, slots).value))) > CAP)
  {
    hide Bytes, FixedBytes, ListBytes, DiagnosticTexts, OmissionDiagnostics, NamesOf, NamingChunks, Weights, Omitted, Pick;
    var chunks := NamingChunks(NamesOf(env.entries, omitted), 40 - |env.base|);
    if chunks.Some? {
      BytesAreAdditive(Reducer(env.head, env.context, [], env.base + OmissionDiagnostics(chunks.value)));
      NoOutcomes();
    }
  }

  lemma NoOutcomes()
    ensures ListBytes(OutcomeTexts([])) == 0
  {
    assert OutcomeTexts([]) == [];
  }

  /** The names, in their order, in messages of at most 800 characters. */
  ghost predicate InMessages(names: seq<string>, chunks: seq<seq<string>>) {
    && Flatten(chunks) == names
    && forall i :: 0 <= i < |chunks| ==>
         chunks[i] != [] && |"Protected terminal findings omitted by reducer byte caps: " + Join(chunks[i], ", ") + "."| <= 800
  }

  lemma FitsIff(chunk: seq<string>)
    ensures Fits(chunk) <==> |"Protected terminal findings omitted by reducer byte caps: " + Join(chunk, ", ") + "."| <= 800
  {
    MessageLengthIs(chunk);
    hide Join, MessageLength;
  }

  lemma InMessagesIff(names: seq<string>, chunks: seq<seq<string>>)
    ensures InMessages(names, chunks) <==> IsPartition(chunks, names)
  {
    hide Fits, Join, Flatten;
    forall i | 0 <= i < |chunks|
      ensures Fits(chunks[i]) <==> |"Protected terminal findings omitted by reducer byte caps: " + Join(chunks[i], ", ") + "."| <= 800
    {
      FitsIff(chunks[i]);
    }
  }

  /** Omissions can be named exactly when their names fit into as many such messages as
      there are slots left. */
  lemma NamesFitIff(names: seq<string>, slots: int)
    ensures NamingChunks(names, slots).Some? <==> names == [] || exists chunks :: InMessages(names, chunks) && |chunks| <= slots
  {
    hide IsPartition, InMessages;
    if names != [] {
      forall chunks
        ensures InMessages(names, chunks) <==> IsPartition(chunks, names)
        ensures InMessages(names, chunks) ==> |chunks| > 0
      {
        InMessagesIff(names, chunks);
        SomeMessage(names, chunks);
      }
      if slots > 0 {
        ChunkIsExact(names, slots);
      }
    }
  }

  lemma SomeMessage(names: seq<string>, chunks: seq<seq<string>>)
    requires names != []
    ensures InMessages(names, chunks) ==> |chunks| > 0
  {
  }

  /** The k-th attempt fails, and none before it ended the loop. */
  ghost predicate FailsAt(env: Env, omitted: set<nat>, k: nat) {
    Try(env, Named(env, omitted, k)).CannotFit? && forall j :: 0 <= j < k ==> !Reproduces(env, Named(env, omitted, j))
  }

  lemma {:induction false} SettleFailsIff(env: Env, omitted: set<nat>, attempts: nat)
    requires attempts > 0
    ensures Settle(env, omitted, attempts).Unfit? <==> exists k :: 0 <= k < attempts && FailsAt(env, omitted, k)
    decreases attempts
  {
    hide Try;
    assert Named(env, omitted, 0) == omitted;
    if Try(env, omitted).CannotFit? {
      assert FailsAt(env, omitted, 0);
    } else {
      var next := Try(env, omitted).next;
      assert NextNamed(env, omitted) == next;
      if next != omitted && attempts > 1 {
        SettleFailsIff(env, next, attempts - 1);
      }
      forall k: nat
        ensures FailsAt(env, omitted, k) <==> next != omitted && k > 0 && FailsAt(env, next, k - 1)
      {
        FailsLater(env, omitted, next, k);
      }
      if next != omitted && attempts > 1 && Settle(env, next, attempts - 1).Unfit? {
        var k :| 0 <= k < attempts - 1 && FailsAt(env, next, k);
        assert FailsAt(env, omitted, k + 1);
      }
    }
  }

  lemma FailsLater(env: Env, omitted: set<nat>, next: set<nat>, k: nat)
    requires Try(env, omitted).Fitted? && Try(env, omitted).next == next
    ensures FailsAt(env, omitted, k) <==> next != omitted && k > 0 && FailsAt(env, next, k - 1)
  {
    hide Try;
    assert Named(env, omitted, 0) == omitted && NextNamed(env, omitted) == next;
    assert forall j: nat :: j > 0 ==> Named(env, omitted, j) == Named(env, next, j - 1);
    if k > 0 && next != omitted {
      if FailsAt(env, omitted, k) {
        forall j | 0 <= j < k - 1
          ensures !Reproduces(env, Named(env, next, j))
        {
          assert !Reproduces(env, Named(env, omitted, j + 1));
        }
      }
      if FailsAt(env, next, k - 1) {
        forall j | 0 <= j < k
          ensures !Reproduces(env, Named(env, omitted, j))
        {
          if j > 0 {
            assert !Reproduces(env, Named(env, next, j - 1));
          }
        }
      }
    }
    if k > 0 && next == omitted {
      assert Reproduces(env, Named(env, omitted, 0));
    }
  }

  /** The function throws exactly when one of its attempts fails. */
  lemma BuildFailsIff(head: string, context: Context, outcomes: seq<Outcome>)
    requires NeedsPruning(head, context, outcomes)
    ensures Build(head, context, outcomes).CannotName?
       <==> exists k :: 0 <= k < |outcomes| + 2 && FailsAt(BuildEnv(head, context, outcomes), {}, k)
  {
    hide Bytes, Priority, Prioritize, Shrink, Settle, FailsAt, Compacted, PruneEnv;
    PrioritizeIsStableSort(outcomes);
    SettleFailsIff(BuildEnv(head, context, outcomes), {}, |outcomes| + 2);
  }
}
