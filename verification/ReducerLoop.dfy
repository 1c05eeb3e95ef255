/** The main results about pruning: an exact account of protected findings, and the
    convergence of the naming loop. */
module ReducerLoop {
  import opened Text
  import opened GreedyPacking
  import opened NameChunks
  import opened ReducerInput
  import opened ReducerSelection
  import opened ReducerByteCap
  import opened ReducerConvergence

  // ---- The entries that buildBacklogCurationReducerInput prunes ----

  /** Entries are distinct, protected ones come first, and indexes are positions. */
  ghost predicate Ranked(entries: seq<Entry>, m: nat) {
    ProtectedFirst(entries, m) && DistinctIndexes(entries)
  }

  function CompactedEntries(outcomes: seq<Outcome>): seq<Entry> {
    CompactAll(Prioritize(outcomes))
  }

  lemma PrioritizedEntry(outcomes: seq<Outcome>, i: nat)
    requires i < |Prioritize(outcomes)|
    ensures var e := Prioritize(outcomes)[i];
            e.originalIndex < |outcomes| && e.outcome == outcomes[e.originalIndex] && e.priority == Priority(e.outcome)
  {
    hide Priority, BucketsFrom;
    PrioritizeIsStableSort(outcomes);
    assert Prioritize(outcomes)[i] in multiset(Prioritize(outcomes));
    assert Prioritize(outcomes)[i] in EntriesOf(outcomes);
  }

  lemma CompactedEntriesAreRanked(outcomes: seq<Outcome>) returns (m: nat)
    ensures |CompactedEntries(outcomes)| == |outcomes| && Ranked(CompactedEntries(outcomes), m)
    ensures forall i :: 0 <= i < m ==>
              var e := CompactedEntries(outcomes)[i];
              e.originalIndex < |outcomes| && Protected(outcomes[e.originalIndex]) && e.outcome == Compact(outcomes[e.originalIndex])
    ensures forall i, j :: 0 <= i < j < m ==> CompactedEntries(outcomes)[i].originalIndex < CompactedEntries(outcomes)[j].originalIndex
  {
    PrioritizeIsStableSort(outcomes);
    var entries := Prioritize(outcomes);
    forall i | 0 <= i < |entries|
      ensures entries[i].originalIndex < |outcomes| && entries[i].outcome == outcomes[entries[i].originalIndex]
      ensures entries[i].priority == Priority(entries[i].outcome)
    {
      PrioritizedEntry(outcomes, i);
    }
    hide Prioritize, Priority, Compact, Protected, EntriesOf;
    m := 0;
    while m < |entries| && Protected(entries[m].outcome)
      invariant m <= |entries| && forall i :: 0 <= i < m ==> Protected(entries[i].outcome)
    {
      m := m + 1;
    }
    forall i | m <= i < |entries|
      ensures !Protected(entries[i].outcome)
    {
      assert entries[m].priority > 0;
      assert i > m ==> Before(entries[m], entries[i]);
    }
  }

  // ---- Exact account ----

  lemma {:induction false} NamedAreProtected(env: Env, omitted: set<nat>, attempts: nat)
    requires attempts > 0 && Settle(env, omitted, attempts).Settled?
    requires forall k :: k in omitted ==> exists i :: 0 <= i < |env.entries| && env.entries[i].originalIndex == k && Protected(env.entries[i].outcome)
    ensures forall k :: k in Settle(env, omitted, attempts).named ==>
              exists i :: 0 <= i < |env.entries| && env.entries[i].originalIndex == k && Protected(env.entries[i].outcome)
    decreases attempts
  {
    hide Room, NamesOf, NamingChunks, Weights, Pick, Protected;
    var a := Try(env, omitted);
    if a.next != omitted && attempts > 1 {
      NamedAreProtected(env, a.next, attempts - 1);
    }
  }

  lemma NameEndsWithVerdict(id: string, id': string, v: Verdict, v': Verdict)
    requires v in {Shipped, Superseded} && v' in {Shipped, Superseded}
    requires id + ":" + VerdictText(v) == id' + ":" + VerdictText(v')
    ensures id == id' && v == v'
  {
    var s, s' := id + ":" + VerdictText(v), id' + ":" + VerdictText(v');
    assert s[|s| - 3] == VerdictText(v)[|VerdictText(v)| - 3];
    assert s'[|s'| - 3] == VerdictText(v')[|VerdictText(v')| - 3];
    assert id == s[..|s| - |VerdictText(v)| - 1] && id' == s'[..|s'| - |VerdictText(v')| - 1];
  }

  ghost predicate DistinctProtectedIds(entries: seq<Entry>) {
    forall i, j :: 0 <= i < j < |entries| && Protected(entries[i].outcome) && Protected(entries[j].outcome)
      ==> entries[i].outcome.itemId != entries[j].outcome.itemId
  }

  /** A name occurs among the named ones exactly when its entry was omitted. */
  lemma {:induction false} NameOccurs(entries: seq<Entry>, omitted: set<nat>, i: nat)
    requires DistinctProtectedIds(entries) && i < |entries| && Protected(entries[i].outcome)
    ensures NameOf(entries[i].outcome) in NamesOf(entries, omitted) <==> entries[i].originalIndex in omitted
  {
    if i > 0 {
      NameOccurs(entries[1..], omitted, i - 1);
      if Protected(entries[0].outcome) && NameOf(entries[0].outcome) == NameOf(entries[i].outcome) {
        NameEndsWithVerdict(entries[0].outcome.itemId, entries[i].outcome.itemId,
          entries[0].outcome.body.finding.verdict.value, entries[i].outcome.body.finding.verdict.value);
      }
    } else if NameOf(entries[0].outcome) in NamesOf(entries[1..], omitted) {
      NameComesFrom(entries[1..], omitted, NameOf(entries[0].outcome));
      var j :| 0 <= j < |entries[1..]| && Protected(entries[1..][j].outcome) && NameOf(entries[1..][j].outcome) == NameOf(entries[0].outcome);
      NameEndsWithVerdict(entries[0].outcome.itemId, entries[j + 1].outcome.itemId,
        entries[0].outcome.body.finding.verdict.value, entries[j + 1].outcome.body.finding.verdict.value);
    }
  }

  lemma {:induction false} NameComesFrom(entries: seq<Entry>, omitted: set<nat>, name: string)
    requires name in NamesOf(entries, omitted)
    ensures exists j :: 0 <= j < |entries| && Protected(entries[j].outcome) && NameOf(entries[j].outcome) == name
  {
    hide NameOf, Protected;
    if name in NamesOf(entries[1..], omitted) {
      NameComesFrom(entries[1..], omitted, name);
      var j :| 0 <= j < |entries[1..]| && Protected(entries[1..][j].outcome) && NameOf(entries[1..][j].outcome) == name;
      assert entries[j + 1] == entries[1..][j];
    }
  }

  lemma SameNamesSameOmissions(entries: seq<Entry>, a: set<nat>, b: set<nat>)
    requires DistinctProtectedIds(entries) && NamesOf(entries, a) == NamesOf(entries, b)
    requires forall k :: k in a + b ==> exists i :: 0 <= i < |entries| && entries[i].originalIndex == k && Protected(entries[i].outcome)
    ensures a == b
  {
    hide NameOf, NamesOf, Protected;
    forall k | k in a + b
      ensures k in a && k in b
    {
      var i :| 0 <= i < |entries| && entries[i].originalIndex == k && Protected(entries[i].outcome);
      NameOccurs(entries, a, i);
      NameOccurs(entries, b, i);
    }
  }

  /** The reducer keeps the selected entries, and the last of its diagnostics name the
      protected findings it dropped, each once and in priority order. */
  ghost predicate AccountedBy(reducer: Reducer, entries: seq<Entry>, kept: seq<bool>, chunks: seq<seq<string>>)
    requires |kept| == |entries|
  {
    && reducer.outcomes == Selected(OutcomesOf(entries), kept)
    && |chunks| <= |reducer.diagnostics|
    && reducer.diagnostics[|reducer.diagnostics| - |chunks|..] == OmissionDiagnostics(chunks)
    && Flatten(chunks) == DroppedNames(entries, kept)
  }

  lemma PrunedShape(r: Reducer, entries: seq<Entry>)
    requires Prune(r, entries).Ok?
    ensures var s, reducer := Search(r, entries), Prune(r, entries).reducer;
            && s.Settled?
            && reducer.outcomes == Selected(OutcomesOf(entries), s.kept)
            && |s.chunks| <= |reducer.diagnostics|
            && reducer.diagnostics[|reducer.diagnostics| - |s.chunks|..] == OmissionDiagnostics(s.chunks)
  {
    hide Search, OmissionDiagnostics, OutcomesOf, OutcomesDropped, NamesOf;
  }

  lemma SearchNames(r: Reducer, entries: seq<Entry>)
    requires Search(r, entries).Settled?
    ensures var s := Search(r, entries);
            && Flatten(s.chunks) == NamesOf(entries, s.named)
            && (s.converged <==> Omitted(entries, s.kept) == s.named)
  {
    hide NamesOf, Omitted, NamingChunks, Room, Weights, Settle;
    var env := PruneEnv(r, entries);
    SettledByAttempt(env, {}, |entries| + 2);
    NamingIsPartition(NamesOf(entries, Search(r, entries).named), DIAGNOSTICS_MAX - |env.base|);
  }

  /** No silent loss: when pruning returns, its diagnostics name exactly the protected
      findings it dropped if and only if the omissions had stabilised. */
  lemma ExactAccount(r: Reducer, entries: seq<Entry>)
    requires Prune(r, entries).Ok? && DistinctIndexes(entries) && DistinctProtectedIds(entries)
    ensures Search(r, entries).Settled?
    ensures AccountedBy(Prune(r, entries).reducer, entries, Search(r, entries).kept, Search(r, entries).chunks)
       <==> Search(r, entries).converged
  {
    hide Search, NamesOf, Prune, OmissionDiagnostics, OutcomesOf, DistinctProtectedIds, DistinctIndexes, PruneEnv, Settle, Protected, DroppedNames, Omitted;
    PrunedShape(r, entries);
    SearchNames(r, entries);
    SearchOmissions(r, entries);
    var s := Search(r, entries);
    OmittedIsDropped(entries, s.kept);
  }

  /** Different omissions have different names. */
  lemma SearchOmissions(r: Reducer, entries: seq<Entry>)
    requires Search(r, entries).Settled? && DistinctProtectedIds(entries)
    ensures var s := Search(r, entries);
            NamesOf(entries, s.named) == NamesOf(entries, Omitted(entries, s.kept)) <==> s.named == Omitted(entries, s.kept)
  {
    hide NamesOf, Omitted, OutcomesDropped, Settle, Protected, DistinctProtectedIds;
    NamedAreProtected(PruneEnv(r, entries), {}, |entries| + 2);
    var s := Search(r, entries);
    OmittedAreProtected(entries, s.kept);
    if NamesOf(entries, s.named) == NamesOf(entries, Omitted(entries, s.kept)) {
      SameNamesSameOmissions(entries, s.named, Omitted(entries, s.kept));
    }
  }

  lemma OmittedAreProtected(entries: seq<Entry>, kept: seq<bool>)
    requires |kept| == |entries|
    ensures forall k :: k in Omitted(entries, kept) ==> exists i :: 0 <= i < |entries| && entries[i].originalIndex == k && Protected(entries[i].outcome)
  {
    hide Protected;
  }

  /** The diagnostics stay within the schema's limits: at most 40 of them, and no
      omission message is longer than 800 characters. */
  lemma DiagnosticsWithinLimits(r: Reducer, entries: seq<Entry>)
    requires Prune(r, entries).Ok? && |r.diagnostics| < DIAGNOSTICS_MAX
    ensures |Prune(r, entries).reducer.diagnostics| <= DIAGNOSTICS_MAX
    ensures forall i :: 0 <= i < |Search(r, entries).chunks| ==> |Message(Search(r, entries).chunks[i])| <= MESSAGE_MAX
  {
    hide NamesOf, Omitted, Room, Weights, Settle, OmissionDiagnostics, OutcomesOf, OutcomesDropped, Message, Selected;
    var env := PruneEnv(r, entries);
    SettledByAttempt(env, {}, |entries| + 2);
    var s := Search(r, entries);
    NamingIsPartition(NamesOf(entries, s.named), DIAGNOSTICS_MAX - |env.base|);
    forall i | 0 <= i < |s.chunks|
      ensures |Message(s.chunks[i])| <= MESSAGE_MAX
    {
      MessageLengthIs(s.chunks[i]);
    }
  }

  // ---- Convergence ----

  function Tail(entries: seq<Entry>, from: nat, to: nat): set<nat>
    requires to <= |entries|
  {
    set i | from <= i < to :: entries[i].originalIndex
  }

  /** The entries from position p to m can be named. */
  ghost predicate CanName(env: Env, m: nat, p: nat)
    requires Ranked(env.entries, m) && p <= m
  {
    NamingChunks(NamesAt(env.entries, p, m), DIAGNOSTICS_MAX - |env.base|).Some?
  }

  /** The room that is left when they are. */
  ghost function RoomNaming(env: Env, m: nat, p: nat): int
    requires Ranked(env.entries, m) && p <= m && CanName(env, m, p)
  {
    Room(env, NamingChunks(NamesAt(env.entries, p, m), DIAGNOSTICS_MAX - |env.base|).value)
  }

  /** Behind the first s entries the protected sizes never shrink, and those s fit even
      in the room that is left when all the others are named. */
  ghost predicate GrowsBehind(env: Env, m: nat, s: nat)
    requires Ranked(env.entries, m) && s <= m
  {
    && NonDecreasing(Weights(env.entries)[s..m])
    && (s > 0 ==> CanName(env, m, s) && Total(Weights(env.entries)[..s]) <= RoomNaming(env, m, s))
  }

  lemma NamesOfTail(entries: seq<Entry>, m: nat, p: nat)
    requires Ranked(entries, m) && p <= m
    ensures NamesOf(entries, Tail(entries, p, m)) == NamesAt(entries, p, m)
  {
    hide Protected, NameOf, NamesOf;
    forall i | 0 <= i < |entries|
      ensures entries[i].originalIndex in Tail(entries, p, m) && Protected(entries[i].outcome) <==> p <= i < m
    {
      if entries[i].originalIndex in Tail(entries, p, m) {
        var j :| p <= j < m && entries[j].originalIndex == entries[i].originalIndex;
        assert i == j;
      }
    }
    NamesOfRange(entries, Tail(entries, p, m), p, m);
  }

  /** How many protected entries are kept when those from position p on are named. */
  ghost function Position(env: Env, m: nat, s: nat, p: nat): (q: nat)
    requires Ranked(env.entries, m) && s <= m && p <= m && CanName(env, m, p)
    ensures s <= q <= m
  {
    s + PrefixLength(Weights(env.entries)[s..m], RoomNaming(env, m, p) - Total(Weights(env.entries)[..s]))
  }

  /** First-fit on a front that fits, sizes that never shrink, and a rest. */
  lemma PickInThree(weights: seq<nat>, s: nat, m: nat, room: int)
    requires s <= m <= |weights| && NonDecreasing(weights[s..m]) && (s > 0 ==> Total(weights[..s]) <= room)
    ensures forall i :: 0 <= i < m ==>
              (Pick(weights, room)[i] <==> i < s + PrefixLength(weights[s..m], room - Total(weights[..s])))
  {
    hide Total, NonDecreasing, PrefixLength;
    var front, middle := weights[..s], weights[s..m];
    PickFront(weights[..m], weights[m..], room);
    assert weights[..m] + weights[m..] == weights && front + middle == weights[..m];
    if s > 0 {
      PickBehind(front, middle, room);
    } else {
      assert front == [] && Total(front) == 0 by {
        EmptyTotal();
      }
    }
    PickPrefix(middle, room - Total(front));
    forall i | 0 <= i < m
      ensures Pick(weights, room)[i] <==> i < s + PrefixLength(middle, room - Total(front))
    {
      assert Pick(weights, room)[i] == Pick(weights[..m], room)[i];
      assert s == 0 ==> middle == weights[..m];
      assert i >= s ==> Pick(weights[..m], room)[i] == Pick(middle, room - Total(front))[i - s];
    }
  }

  lemma EmptyTotal()
    ensures Total([]) == 0
  {
  }

  lemma NamingLessLeavesMore(env: Env, m: nat, p: nat, p': nat)
    requires Ranked(env.entries, m) && p <= p' <= m && CanName(env, m, p)
    ensures CanName(env, m, p') && RoomNaming(env, m, p) <= RoomNaming(env, m, p')
  {
    hide Room, NamingChunks, Protected;
    assert NamesAt(env.entries, p, m)[p' - p..] == NamesAt(env.entries, p', m);
    MoreRoom(env, NamesAt(env.entries, p, m), p' - p);
  }

  /** An attempt keeps a prefix of the protected entries, so it omits a tail. */
  lemma AttemptOmitsTail(env: Env, m: nat, s: nat, p: nat)
    requires Ranked(env.entries, m) && s <= p <= m && GrowsBehind(env, m, s)
    requires Try(env, Tail(env.entries, p, m)).Fitted?
    ensures CanName(env, m, p) && Try(env, Tail(env.entries, p, m)).next == Tail(env.entries, Position(env, m, s, p), m)
  {
    hide Room, NamingChunks, NamesAt, NamesOf, Protected, Weights, Total, PrefixLength, Pick;
    NamesOfTail(env.entries, m, p);
    var weights := Weights(env.entries);
    var room := RoomNaming(env, m, p);
    if s > 0 {
      NamingLessLeavesMore(env, m, s, p);
    }
    PickInThree(weights, s, m, room);
    var kept := Pick(weights, room);
    var q := Position(env, m, s, p);
    assert forall i :: 0 <= i < |env.entries| ==> (!kept[i] && Protected(env.entries[i].outcome) <==> q <= i < m);
    assert Omitted(env.entries, kept) == Tail(env.entries, q, m);
  }

  /** Naming fewer findings never keeps fewer of them. */
  lemma PositionMonotone(env: Env, m: nat, s: nat, p: nat, p': nat)
    requires Ranked(env.entries, m) && s <= m && p <= p' <= m && CanName(env, m, p)
    ensures CanName(env, m, p') && Position(env, m, s, p) <= Position(env, m, s, p')
  {
    hide RoomNaming, CanName, Weights, PrefixLength, Protected, Total;
    NamingLessLeavesMore(env, m, p, p');
    var weights := Weights(env.entries);
    PrefixLengthMonotone(weights[s..m], RoomNaming(env, m, p) - Total(weights[..s]), RoomNaming(env, m, p') - Total(weights[..s]));
  }

  lemma TailsDiffer(entries: seq<Entry>, m: nat, p: nat, q: nat)
    requires Ranked(entries, m) && q < p <= m
    ensures Tail(entries, q, m) != Tail(entries, p, m)
  {
    hide Protected;
    assert entries[q].originalIndex in Tail(entries, q, m);
  }

  /** Naming from p on keeps at most p. */
  ghost predicate KeepsAtMost(env: Env, m: nat, s: nat, p: nat)
    requires Ranked(env.entries, m) && s <= p <= m
  {
    Try(env, Tail(env.entries, p, m)).Fitted? ==> CanName(env, m, p) && Position(env, m, s, p) <= p
  }

  /** The omitted tail only grows, so p + 1 attempts are enough. */
  lemma {:induction false} TailsStabilise(env: Env, m: nat, s: nat, p: nat, attempts: nat)
    requires Ranked(env.entries, m) && s <= p <= m && GrowsBehind(env, m, s) && attempts >= p + 1
    requires KeepsAtMost(env, m, s, p)
    ensures var end := Settle(env, Tail(env.entries, p, m), attempts);
            end.Settled? ==> end.converged && exists q :: s <= q <= m && end.named == Tail(env.entries, q, m)
    decreases attempts
  {
    hide Try, CanName, Position, GrowsBehind, Protected;
    var a := Try(env, Tail(env.entries, p, m));
    if a.Fitted? {
      AttemptOmitsTail(env, m, s, p);
      var q := Position(env, m, s, p);
      if q < p {
        TailsDiffer(env.entries, m, p, q);
        if Try(env, Tail(env.entries, q, m)).Fitted? {
          AttemptOmitsTail(env, m, s, q);
          PositionMonotone(env, m, s, q, p);
        }
        TailsStabilise(env, m, s, q, attempts - 1);
      }
    }
  }

  lemma PruneEnvEntries(r: Reducer, entries: seq<Entry>)
    ensures PruneEnv(r, entries).entries == entries
  {
  }

  lemma GrowsFromStart(env: Env, m: nat)
    requires Ranked(env.entries, m) && NonDecreasing(Weights(env.entries)[0..m])
    ensures GrowsBehind(env, m, 0)
  {
  }

  /** Convergence: when the compacted protected findings never shrink along the
      priority order, after a front that fits in any case, the loop leaves through equal
      sets within its n + 2 attempts (or reports that the omissions cannot be named), and
      what it omits is a tail behind the front. */
  lemma LoopConverges(r: Reducer, entries: seq<Entry>, m: nat, s: nat)
    requires Ranked(entries, m) && s <= m && GrowsBehind(PruneEnv(r, entries), m, s)
    ensures Search(r, entries).Settled? ==>
              Search(r, entries).converged && exists q :: s <= q <= m && Search(r, entries).named == Tail(entries, q, m)
  {
    hide Settle, CanName, GrowsBehind, Try, Position, Protected, PruneEnv;
    var env := PruneEnv(r, entries);
    PruneEnvEntries(r, entries);
    assert Tail(entries, m, m) == {};
    if Try(env, Tail(entries, m, m)).Fitted? {
      AttemptOmitsTail(env, m, s, m);
    }
    TailsStabilise(env, m, s, m, |entries| + 2);
  }

  // ---- The exact condition ----

  /** What the attempt after this one names. */
  function NextNamed(env: Env, omitted: set<nat>): set<nat> {
    match Try(env, omitted) case CannotFit => omitted case Fitted(_, _, next) => next
  }

  function Named(env: Env, omitted: set<nat>, k: nat): set<nat>
    decreases k
  {
    if k == 0 then omitted else Named(env, NextNamed(env, omitted), k - 1)
  }

  /** An attempt that omits exactly what it names. */
  ghost predicate Reproduces(env: Env, omitted: set<nat>) {
    Try(env, omitted).Fitted? && Try(env, omitted).next == omitted
  }

  /** One of so many attempts does, starting with the given omissions. */
  ghost predicate SomeReproduces(env: Env, omitted: set<nat>, attempts: nat) {
    exists k :: 0 <= k < attempts && Reproduces(env, Named(env, omitted, k))
  }

  lemma LaterReproduces(env: Env, omitted: set<nat>, attempts: nat)
    requires attempts > 0
    ensures SomeReproduces(env, omitted, attempts)
       <==> Reproduces(env, omitted) || SomeReproduces(env, NextNamed(env, omitted), attempts - 1)
  {
    hide Try, NextNamed, Reproduces;
    var next := NextNamed(env, omitted);
    assert Named(env, omitted, 0) == omitted;
    if SomeReproduces(env, next, attempts - 1) {
      var k :| 0 <= k < attempts - 1 && Reproduces(env, Named(env, next, k));
      assert Named(env, omitted, k + 1) == Named(env, next, k);
    }
    if SomeReproduces(env, omitted, attempts) && !Reproduces(env, omitted) {
      var k :| 0 <= k < attempts && Reproduces(env, Named(env, omitted, k));
      assert k > 0 && Named(env, omitted, k) == Named(env, next, k - 1);
    }
  }

  lemma {:induction false} SettlesIffReproduced(env: Env, omitted: set<nat>, attempts: nat)
    requires attempts > 0 && Settle(env, omitted, attempts).Settled?
    ensures Settle(env, omitted, attempts).converged <==> SomeReproduces(env, omitted, attempts)
    decreases attempts
  {
    hide Try, SomeReproduces;
    LaterReproduces(env, omitted, attempts);
    if !Reproduces(env, omitted) {
      if attempts > 1 {
        SettlesIffReproduced(env, NextNamed(env, omitted), attempts - 1);
      } else {
        NoAttempts(env, NextNamed(env, omitted));
      }
    }
  }

  lemma NoAttempts(env: Env, omitted: set<nat>)
    ensures !SomeReproduces(env, omitted, 0)
  {
  }

  /** The hypothesis on what the caller passes. */
  ghost predicate ProtectedSizesGrow(outcomes: seq<Outcome>) {
    forall i, j :: 0 <= i < j < |outcomes| && Protected(outcomes[i]) && Protected(outcomes[j])
      ==> Utf8Length(outcomes[i].compactText) <= Utf8Length(outcomes[j].compactText)
  }

  ghost predicate DistinctItems(outcomes: seq<Outcome>) {
    forall i, j :: 0 <= i < j < |outcomes| ==> outcomes[i].itemId != outcomes[j].itemId
  }

  lemma EntriesOfDistinctItems(outcomes: seq<Outcome>)
    requires DistinctItems(outcomes)
    ensures DistinctIndexes(CompactedEntries(outcomes)) && DistinctProtectedIds(CompactedEntries(outcomes))
  {
    hide Prioritize, Priority, Compact, Protected;
    var m := CompactedEntriesAreRanked(outcomes);
  }

  lemma EntriesOfGrowingSizes(outcomes: seq<Outcome>, m: nat)
    requires ProtectedSizesGrow(outcomes)
    requires m <= |CompactedEntries(outcomes)|
    requires forall i :: 0 <= i < m ==>
               var e := CompactedEntries(outcomes)[i];
               e.originalIndex < |outcomes| && Protected(outcomes[e.originalIndex]) && e.outcome == Compact(outcomes[e.originalIndex])
    requires forall i, j :: 0 <= i < j < m ==> CompactedEntries(outcomes)[i].originalIndex < CompactedEntries(outcomes)[j].originalIndex
    ensures NonDecreasing(Weights(CompactedEntries(outcomes))[0..m])
  {
    hide CompactedEntries, Protected, Utf8Length;
  }

  /** What the second half of the function starts from. */
  ghost predicate NeedsPruning(head: string, context: Context, outcomes: seq<Outcome>) {
    Bytes(Reducer(head, context, outcomes, [])) > CAP && Bytes(Compacted(Reducer(head, context, outcomes, []))) > CAP
  }

  /** The environment of the loop that Build runs. */
  function BuildEnv(head: string, context: Context, outcomes: seq<Outcome>): Env {
    PruneEnv(Compacted(Reducer(head, context, outcomes, [])), CompactedEntries(outcomes))
  }

  /** The whole function, exactly: for distinct items, the pruned reducer names the
      protected findings that it dropped if and only if one of the attempts omits just
      what it names. */
  lemma BuildAccountsIff(head: string, context: Context, outcomes: seq<Outcome>)
    requires DistinctItems(outcomes) && NeedsPruning(head, context, outcomes) && Build(head, context, outcomes).Ok?
    ensures var s := Search(Compacted(Reducer(head, context, outcomes, [])), CompactedEntries(outcomes));
            && s.Settled?
            && (AccountedBy(Build(head, context, outcomes).reducer, CompactedEntries(outcomes), s.kept, s.chunks)
                <==> SomeReproduces(BuildEnv(head, context, outcomes), {}, |outcomes| + 2))
  {
    hide Shrink, Bytes, AccountedBy, DistinctItems, Prune, Priority, Settle, SomeReproduces, Compacted, PruneEnv;
    var entries := CompactedEntries(outcomes);
    var r := Compacted(Reducer(head, context, outcomes, []));
    EntriesOfDistinctItems(outcomes);
    var m := CompactedEntriesAreRanked(outcomes);
    ExactAccount(r, entries);
    SettlesIffReproduced(PruneEnv(r, entries), {}, |entries| + 2);
  }

  /** Growing sizes and distinct items are enough for the pruned reducer to name every
      protected finding that it dropped. */
  lemma BuildLosesNothingSilently(head: string, context: Context, outcomes: seq<Outcome>)
    requires ProtectedSizesGrow(outcomes) && DistinctItems(outcomes) && NeedsPruning(head, context, outcomes)
    requires Build(head, context, outcomes).Ok?
    ensures exists kept: seq<bool>, chunks :: |kept| == |CompactedEntries(outcomes)|
              && AccountedBy(Build(head, context, outcomes).reducer, CompactedEntries(outcomes), kept, chunks)
  {
    hide Search, Shrink, Bytes, AccountedBy, DistinctItems, ProtectedSizesGrow, Prune, Priority, Weights, Compacted, GrowsBehind, PruneEnv, NonDecreasing;
    var entries := CompactedEntries(outcomes);
    var r := Compacted(Reducer(head, context, outcomes, []));
    EntriesOfDistinctItems(outcomes);
    var m := CompactedEntriesAreRanked(outcomes);
    EntriesOfGrowingSizes(outcomes, m);
    ExactAccount(r, entries);
    PruneEnvEntries(r, entries);
    GrowsFromStart(PruneEnv(r, entries), m);
    LoopConverges(r, entries, m, 0);
  }

  /** Whatever the pruned reducer keeps, it keeps less than it was given. */
  lemma BuildDropsSomething(head: string, context: Context, outcomes: seq<Outcome>)
    requires NeedsPruning(head, context, outcomes) && Build(head, context, outcomes).Ok?
    ensures |Build(head, context, outcomes).reducer.outcomes| < |outcomes|
  {
    hide Shrink, Bytes, Prune, Priority, BucketsFrom;
    PrioritizeIsStableSort(outcomes);
    PruneDropsSomething(Compacted(Reducer(head, context, outcomes, [])), CompactAll(Prioritize(outcomes)));
  }
}
