/** The naming loop need not stabilise: after outcomes that always fit, two protected
    findings, the first larger and with the shorter name, can trade places until the
    attempts run out, with the retained one named as omitted and the dropped one not. */
module ReducerOscillation {
  import opened Text
  import opened GreedyPacking
  import opened NameChunks
  import opened ReducerInput
  import opened ReducerSelection
  import opened ReducerByteCap
  import opened ReducerConvergence
  import opened ReducerLoop

  /** Weight that naming one finding adds to the diagnostics. */
  function Cost(name: string): nat {
    NameBytes([name]) + 2 + Overhead(1)
  }

  lemma OneName(name: string, slots: int)
    requires slots >= 1 && Fits([name])
    ensures NamingChunks([name], slots) == Some([[name]])
  {
    hide Fits;
    CloseMessage([name], []);
    assert [name] + [] == [name];
    assert GreedyChunks([]) == Some([]);
    assert [[name]] + [] == [[name]];
  }

  lemma OneNameCosts(name: string)
    ensures Weight(DiagnosticTexts(OmissionDiagnostics([[name]]))) == Cost(name)
  {
    hide DiagnosticTexts, OmissionDiagnostics, EscapedBytes, Overhead;
    OmissionWeight([[name]]);
    assert Flatten([[name]]) == [name];
  }

  lemma RoomAfterNaming(env: Env, name: string)
    requires env.base != [] && Fits([name])
    ensures Room(env, [[name]]) == Room(env, []) - Cost(name)
  {
    hide DiagnosticTexts, OmissionDiagnostics, FixedBytes, ListBytes, Fits, Cost;
    OneNameCosts(name);
    var none: seq<seq<string>> := [];
    OmissionWeight(none);
    DiagnosticTextsAppend(env.base, OmissionDiagnostics(none));
    DiagnosticTextsAppend(env.base, OmissionDiagnostics([[name]]));
    ListBytesIsWeight(DiagnosticTexts(env.base + OmissionDiagnostics(none)));
    ListBytesIsWeight(DiagnosticTexts(env.base + OmissionDiagnostics([[name]])));
  }

  // ---- One attempt ----

  lemma PickOfTwo(w: nat, v: nat, room: int)
    ensures Pick([w, v], room) == [w <= room, v <= (if w <= room then room - w else room)]
  {
    var rest := [w, v][1..];
    assert rest == [v] && rest[1..] == [];
  }

  /** There are two protected entries behind the front. */
  ghost predicate EndsInTwo(env: Env, n: nat) {
    && 1 <= |env.base| <= 39 && |env.entries| == n + 2 && DistinctIndexes(env.entries)
    && Protected(env.entries[n].outcome) && Protected(env.entries[n + 1].outcome)
  }

  /** The room that the front leaves when nothing is named. */
  function Left(env: Env, n: nat): int
    requires n <= |env.entries|
  {
    Room(env, []) - Total(Weights(env.entries)[..n])
  }

  /** Naming the first leaves room for it, naming the second leaves room for the second
      only, and there is never room for both. */
  predicate Trade(left: int, costFirst: nat, costSecond: nat, first: nat, second: nat) {
    left - costSecond < first <= left - costFirst && second <= left - costSecond && left < first + second
  }

  /** Everything but one entry. */
  function AllBut(n: nat, k: nat): (kept: seq<bool>) {
    seq(n, i => i != k)
  }

  lemma OmittedOne(entries: seq<Entry>, k: nat)
    requires k < |entries| && DistinctIndexes(entries) && Protected(entries[k].outcome)
    ensures Omitted(entries, AllBut(|entries|, k)) == {entries[k].originalIndex}
  {
    hide Protected;
  }

  lemma NameOfOne(entries: seq<Entry>, k: nat)
    requires k < |entries| && DistinctIndexes(entries) && Protected(entries[k].outcome)
    ensures NamesOf(entries, {entries[k].originalIndex}) == [NameOf(entries[k].outcome)]
  {
    hide Protected, NameOf;
    NamesOfRange(entries, {entries[k].originalIndex}, k, k + 1);
  }

  lemma NoNames(entries: seq<Entry>)
    ensures NamesOf(entries, {}) == []
  {
    hide Protected, NameOf;
    if |entries| > 0 {
      NoNames(entries[1..]);
    }
  }

  /** What is kept in a given room behind the front. */
  lemma PickTraders(env: Env, n: nat, room: int)
    requires |env.entries| == n + 2 && Total(Weights(env.entries)[..n]) <= room
    ensures var weights := Weights(env.entries);
            var left := room - Total(weights[..n]);
            var first := weights[n] <= left;
            (Pick(weights, room) == Flags(n) + [first, weights[n + 1] <= (if first then left - weights[n] else left)])
  {
    hide Weights, Total, Flags;
    var weights := Weights(env.entries);
    PickBehind(weights[..n], weights[n..], room);
    assert weights == weights[..n] + weights[n..] && weights[n..] == [weights[n], weights[n + 1]];
    PickOfTwo(weights[n], weights[n + 1], room - Total(weights[..n]));
  }

  /** One attempt that names at most one finding and keeps all but one entry. */
  lemma TryKeeping(env: Env, n: nat, omitted: set<nat>, names: seq<string>, chunks: seq<seq<string>>, cost: nat, keepFirst: bool)
    requires EndsInTwo(env, n) && NamesOf(env.entries, omitted) == names
    requires NamingChunks(names, DIAGNOSTICS_MAX - |env.base|) == Some(chunks) && Room(env, chunks) == Room(env, []) - cost
    requires var left := Left(env, n) - cost;
             var first, second := Weights(env.entries)[n], Weights(env.entries)[n + 1];
             (if keepFirst then first <= left < first + second else second <= left < first)
    ensures var k := if keepFirst then n + 1 else n;
            (Try(env, omitted) == Fitted(chunks, AllBut(n + 2, k), {env.entries[k].originalIndex}))
  {
    hide Room, NamesOf, Omitted, Protected, Weights, Pick, Try, NamingChunks, Total, DistinctIndexes;
    var k := if keepFirst then n + 1 else n;
    PickTraders(env, n, Room(env, chunks));
    OmittedOne(env.entries, k);
    assert Flags(n) + [keepFirst, !keepFirst] == AllBut(n + 2, k);
    WeightIsPositive(env.entries, n);
    WeightIsPositive(env.entries, n + 1);
    TryWith(env, omitted, names, chunks, Room(env, chunks), AllBut(n + 2, k));
  }

  lemma TryWith(env: Env, omitted: set<nat>, names: seq<string>, chunks: seq<seq<string>>, room: int, kept: seq<bool>)
    requires NamesOf(env.entries, omitted) == names
    requires NamingChunks(names, DIAGNOSTICS_MAX - |env.base|) == Some(chunks)
    requires Room(env, chunks) == room && room >= 1 && Pick(Weights(env.entries), room) == kept
    ensures Try(env, omitted) == Fitted(chunks, kept, Omitted(env.entries, kept))
  {
    hide Room, NamesOf, NamingChunks, Pick, Weights, Omitted;
  }

  lemma WeightIsPositive(entries: seq<Entry>, i: nat)
    requires i < |entries|
    ensures Weights(entries)[i] >= 1
  {
  }

  /** Naming nothing omits j; naming j omits i; naming i omits j again. */
  ghost predicate Alternates(env: Env, n: nat, i: nat, j: nat, a: string, b: string) {
    && i != j
    && Try(env, {}).Fitted? && Try(env, {}).next == {j}
    && Try(env, {j}) == Fitted([[b]], AllBut(n + 2, n), {i})
    && Try(env, {i}) == Fitted([[a]], AllBut(n + 2, n + 1), {j})
  }

  lemma NameNothing(env: Env, n: nat, first: nat, second: nat, left: int)
    requires EndsInTwo(env, n) && first == Weights(env.entries)[n] && second == Weights(env.entries)[n + 1]
    requires left == Left(env, n) && first <= left < first + second
    ensures Try(env, {}).Fitted? && Try(env, {}).next == {env.entries[n + 1].originalIndex}
  {
    hide Room, NamesOf, Protected, Weights, Try, Total, DistinctIndexes, Left;
    NoNames(env.entries);
    TryKeeping(env, n, {}, [], [], 0, true);
  }

  lemma NameOne(env: Env, n: nat, k: nat, name: string, cost: nat, first: nat, second: nat, left: int)
    requires EndsInTwo(env, n) && (k == n || k == n + 1) && Protected(env.entries[k].outcome)
    requires first == Weights(env.entries)[n] && second == Weights(env.entries)[n + 1] && left == Left(env, n)
    requires name == NameOf(env.entries[k].outcome) && Fits([name])
    requires Room(env, [[name]]) == Room(env, []) - cost
    requires k == n ==> first <= left - cost < first + second
    requires k == n + 1 ==> second <= left - cost < first
    ensures Try(env, {env.entries[k].originalIndex}) == Fitted([[name]], AllBut(n + 2, 2 * n + 1 - k), {env.entries[2 * n + 1 - k].originalIndex})
  {
    hide Room, NameOf, NamesOf, Fits, Protected, Weights, Try, NamingChunks, Total, DistinctIndexes, Left;
    OneName(name, DIAGNOSTICS_MAX - |env.base|);
    NameOfOne(env.entries, k);
    TryKeeping(env, n, {env.entries[k].originalIndex}, [name], [[name]], cost, k == n);
  }

  lemma SeesawAlternates(env: Env, n: nat, a: string, b: string, first: nat, second: nat, left: int)
    requires EndsInTwo(env, n) && first == Weights(env.entries)[n] && second == Weights(env.entries)[n + 1] && left == Left(env, n)
    requires a == NameOf(env.entries[n].outcome) && b == NameOf(env.entries[n + 1].outcome) && Fits([a]) && Fits([b])
    requires Trade(left, Cost(a), Cost(b), first, second)
    ensures Alternates(env, n, env.entries[n].originalIndex, env.entries[n + 1].originalIndex, a, b)
  {
    hide Room, Cost, NameOf, Fits, Protected, Weights, Try, Total, Left;
    NameNothing(env, n, first, second, left);
    RoomAfterNaming(env, a);
    RoomAfterNaming(env, b);
    NameOne(env, n, n, a, Cost(a), first, second, left);
    NameOne(env, n, n + 1, b, Cost(b), first, second, left);
  }

  /** However many attempts there are, the loop alternates between the two and ends
      having named the one it keeps. */
  lemma {:induction false} SeesawNeverSettles(env: Env, n: nat, i: nat, j: nat, a: string, b: string, attempts: nat)
    requires Alternates(env, n, i, j, a, b) && attempts > 0
    ensures Settle(env, {j}, attempts) == if attempts % 2 == 1 then Settled({j}, [[b]], AllBut(n + 2, n), false) else Settled({i}, [[a]], AllBut(n + 2, n + 1), false)
    ensures Settle(env, {i}, attempts) == if attempts % 2 == 1 then Settled({i}, [[a]], AllBut(n + 2, n + 1), false) else Settled({j}, [[b]], AllBut(n + 2, n), false)
    decreases attempts
  {
    hide Try, Settle, AllBut;
    assert i in {i} && i !in {j};
    UnrolledSettle(env, {i}, attempts);
    UnrolledSettle(env, {j}, attempts);
    if attempts > 1 {
      SeesawNeverSettles(env, n, i, j, a, b, attempts - 1);
    }
  }

  lemma UnrolledSettle(env: Env, omitted: set<nat>, attempts: nat)
    requires attempts > 0 && Try(env, omitted).Fitted? && Try(env, omitted).next != omitted
    ensures attempts > 1 ==> Settle(env, omitted, attempts) == Settle(env, Try(env, omitted).next, attempts - 1)
    ensures attempts == 1 ==> Settle(env, omitted, attempts) == Settled(omitted, Try(env, omitted).chunks, Try(env, omitted).kept, false)
  {
    hide Try;
  }

  // ---- What is returned ----

  lemma {:induction false} SelectedAllBut<T>(items: seq<T>, k: nat)
    requires k < |items|
    ensures Selected(items, AllBut(|items|, k)) == items[..k] + items[k + 1..]
  {
    var rest := AllBut(|items|, k)[1..];
    if k == 0 {
      SelectedAllOf(items[1..], rest);
    } else {
      SelectedAllBut(items[1..], k - 1);
      assert rest == AllBut(|items| - 1, k - 1);
      assert items[..k] == [items[0]] + items[1..][..k - 1] && items[1..][k..] == items[k + 1..];
    }
  }

  lemma {:induction false} SelectedAllOf<T>(items: seq<T>, kept: seq<bool>)
    requires |kept| == |items| && forall i :: 0 <= i < |kept| ==> kept[i]
    ensures Selected(items, kept) == items
  {
    if items != [] {
      SelectedAllOf(items[1..], kept[1..]);
    }
  }

  /** The omission diagnostics, after the three that pruning always leaves, name exactly
      these findings. */
  ghost predicate NamesOnly(reducer: Reducer, names: seq<string>) {
    && |reducer.diagnostics| == 4
    && reducer.diagnostics[3..] == OmissionDiagnostics([names])
  }

  /** What Prune returns after the seesaw. */
  lemma PruneAfterSeesaw(r: Reducer, entries: seq<Entry>, omitted: set<nat>, name: string, k: nat)
    requires k < |entries| && |r.diagnostics| == 2 && Search(r, entries) == Settled(omitted, [[name]], AllBut(|entries|, k), false)
    ensures var result := Prune(r, entries);
            (result.Ok? && result.reducer.outcomes == OutcomesOf(entries)[..k] + OutcomesOf(entries)[k + 1..] && NamesOnly(result.reducer, [name]))
  {
    hide Search, OutcomesDropped, OmissionDiagnostics, Selected, AllBut;
    SelectedAllBut(OutcomesOf(entries), k);
  }

  lemma BuildIsPrune(head: string, context: Context, outcomes: seq<Outcome>)
    requires NeedsPruning(head, context, outcomes)
    ensures Build(head, context, outcomes) == Prune(Compacted(Reducer(head, context, outcomes, [])), CompactedEntries(outcomes))
  {
    hide Bytes, Compacted, Prune, Prioritize, CompactAll;
  }

  /** Whenever a pruning alternates, it loses one of the two silently: with an even
      number of outcomes the first is dropped and named nowhere, while the second is
      retained and named as omitted. */
  lemma AlternatingLosesSilently(head: string, context: Context, outcomes: seq<Outcome>, n: nat, i: nat, j: nat, a: string, b: string)
    requires NeedsPruning(head, context, outcomes) && |CompactedEntries(outcomes)| == n + 2 && n % 2 == 0
    requires Alternates(PruneEnv(Compacted(Reducer(head, context, outcomes, [])), CompactedEntries(outcomes)), n, i, j, a, b)
    ensures var entries, result := CompactedEntries(outcomes), Build(head, context, outcomes);
            (result.Ok? && result.reducer.outcomes == OutcomesOf(entries)[..n] + [entries[n + 1].outcome] && NamesOnly(result.reducer, [b]))
  {
    hide Bytes, Prune, Compacted, CompactedEntries, Alternates, Try, Settle, OutcomesDropped, NamesOnly, AllBut;
    var entries := CompactedEntries(outcomes);
    var r := Compacted(Reducer(head, context, outcomes, []));
    var env := PruneEnv(r, entries);
    BuildIsPrune(head, context, outcomes);
    FirstStep(env, n, i, j, a, b);
    SeesawNeverSettles(env, n, i, j, a, b, n + 3);
    CompactedHasTwo(Reducer(head, context, outcomes, []));
    PruneAfterSeesaw(r, entries, {j}, b, n);
    assert OutcomesOf(entries)[n + 1..] == [entries[n + 1].outcome];
  }

  lemma FirstStep(env: Env, n: nat, i: nat, j: nat, a: string, b: string)
    requires Alternates(env, n, i, j, a, b)
    ensures Settle(env, {}, n + 4) == Settle(env, {j}, n + 3)
  {
    hide Try, Settle, AllBut;
    assert j in {j};
    UnrolledSettle(env, {}, n + 4);
  }

  lemma CompactedHasTwo(r: Reducer)
    ensures |Compacted(r).diagnostics| == 2
  {
    hide Bytes, Shrink, Prioritize, CapExceeded, ContextTruncated;
  }

}
