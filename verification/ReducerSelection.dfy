/** How buildBacklogCurationReducerInput prunes: priority order, compaction, the
    shrinking of the global context and the search for a stable set of named
    omissions (backlog-curation-packets.ts). */
module ReducerSelection {
  import opened Text
  import opened GreedyPacking
  import opened NameChunks
  import opened ReducerInput

  const OMITTED_CODE := "reducer-input-protected-terminal-omitted"
  const OMITTED_PATH := "outcomes/protected-terminal-omissions/"

  datatype Entry = Entry(outcome: Outcome, originalIndex: nat, priority: nat)

  datatype Result = Ok(reducer: Reducer) | CannotName(names: seq<string>)

  // ---- Priority order ----

  predicate Protected(o: Outcome) {
    o.body.Found? && o.body.finding.disposition == Change && o.body.finding.verdict in {Some(Shipped), Some(Superseded)}
  }

  function Priority(o: Outcome): (p: nat)
    ensures p <= 8
    ensures p == 0 <==> Protected(o)
  {
    if Protected(o) then 0
    else if o.body.Found? then
      var f := o.body.finding;
      if f.disposition == Change then 1
      else if f.disposition == NeedsInput || f.verdict == Some(NeedsProductInput) then 2
      else if f.verdict in {Some(Partial), Some(StillNeeded), Some(StaleInvalid)} then 3
      else if f.signals > 0 then 4
      else 5
    else if o.body.InvalidFinding? || o.body.ItemAgentFailure? then 6
    else if o.body.OversizedPacket? then 7
    else 8
  }

  function EntriesOf(outcomes: seq<Outcome>): (entries: seq<Entry>)
    ensures |entries| == |outcomes|
  {
    seq(|outcomes|, i requires 0 <= i < |outcomes| => Entry(outcomes[i], i, Priority(outcomes[i])))
  }

  function Bucket(entries: seq<Entry>, priority: nat): seq<Entry> {
    if entries == [] then []
    else (if entries[0].priority == priority then [entries[0]] else []) + Bucket(entries[1..], priority)
  }

  function BucketsFrom(entries: seq<Entry>, priority: nat): seq<Entry>
    decreases 9 - priority
  {
    if priority > 8 then [] else Bucket(entries, priority) + BucketsFrom(entries, priority + 1)
  }

  /** prioritizeReducerOutcomes: the stable sort by priority. */
  function Prioritize(outcomes: seq<Outcome>): seq<Entry> {
    BucketsFrom(EntriesOf(outcomes), 0)
  }

  ghost predicate Before(a: Entry, b: Entry) {
    a.priority < b.priority || (a.priority == b.priority && a.originalIndex < b.originalIndex)
  }

  ghost predicate InOrder(entries: seq<Entry>) {
    forall i, j :: 0 <= i < j < |entries| ==> Before(entries[i], entries[j])
  }

  lemma {:induction false} BucketOrder(entries: seq<Entry>, priority: nat)
    requires forall i, j :: 0 <= i < j < |entries| ==> entries[i].originalIndex < entries[j].originalIndex
    ensures InOrder(Bucket(entries, priority))
    ensures forall e: Entry :: e in Bucket(entries, priority) ==> e in entries && e.priority == priority
  {
    if entries != [] {
      BucketOrder(entries[1..], priority);
    }
  }

  lemma {:induction false} BucketsFromOrder(entries: seq<Entry>, priority: nat)
    requires forall i, j :: 0 <= i < j < |entries| ==> entries[i].originalIndex < entries[j].originalIndex
    ensures InOrder(BucketsFrom(entries, priority))
    ensures forall e: Entry :: e in BucketsFrom(entries, priority) ==> e in entries && e.priority >= priority
    decreases 9 - priority
  {
    if priority <= 8 {
      BucketOrder(entries, priority);
      BucketsFromOrder(entries, priority + 1);
      var front, back := Bucket(entries, priority), BucketsFrom(entries, priority + 1);
      forall i, j | 0 <= i < j < |front + back|
        ensures Before((front + back)[i], (front + back)[j])
      {
        if i < |front| <= j {
          assert front[i] in front && back[j - |front|] in back;
        }
      }
    }
  }

  lemma {:induction false} BucketsFromCons(entries: seq<Entry>, priority: nat)
    requires entries != [] && entries[0].priority <= 8
    ensures multiset(BucketsFrom(entries, priority))
         == multiset(BucketsFrom(entries[1..], priority)) + (if priority <= entries[0].priority then multiset{entries[0]} else multiset{})
    decreases 9 - priority
  {
    if priority <= 8 {
      BucketsFromCons(entries, priority + 1);
    }
  }

  lemma {:induction false} BucketsPermute(entries: seq<Entry>, lowest: nat)
    requires forall i :: 0 <= i < |entries| ==> lowest <= entries[i].priority <= 8
    ensures multiset(BucketsFrom(entries, lowest)) == multiset(entries)
  {
    if entries == [] {
      NoBuckets(lowest);
    } else {
      BucketsPermute(entries[1..], lowest);
      BucketsFromCons(entries, lowest);
      FirstInMultiset(entries);
    }
  }

  lemma FirstInMultiset(entries: seq<Entry>)
    requires entries != []
    ensures multiset(entries) == multiset(entries[1..]) + multiset{entries[0]}
  {
    assert entries == [entries[0]] + entries[1..];
  }

  lemma {:induction false} NoBuckets(priority: nat)
    ensures BucketsFrom([], priority) == []
    decreases 9 - priority
  {
    if priority <= 8 {
      NoBuckets(priority + 1);
    }
  }

  /** The priority order is a permutation of the outcomes, sorted by priority and
      then by original position. */
  lemma PrioritizeIsStableSort(outcomes: seq<Outcome>)
    ensures InOrder(Prioritize(outcomes))
    ensures multiset(Prioritize(outcomes)) == multiset(EntriesOf(outcomes))
    ensures |Prioritize(outcomes)| == |outcomes|
  {
    var entries := EntriesOf(outcomes);
    BucketsFromOrder(entries, 0);
    BucketsPermute(entries, 0);
    assert |Prioritize(outcomes)| == |multiset(Prioritize(outcomes))| == |multiset(entries)| == |entries|;
  }

  // ---- Compaction ----

  /** compactReducerOutcomeForCap: everything the selection reads is kept except
      that signals are cut. */
  function Compact(o: Outcome): (c: Outcome)
    ensures c.itemId == o.itemId && (Protected(c) <==> Protected(o))
    ensures Protected(o) ==> c.body.finding.verdict == o.body.finding.verdict
  {
    if o.body.Found? then
      var f := o.body.finding;
      var signals := if Protected(o) then 0 else if f.signals < 2 then f.signals else 2;
      o.(text := o.compactText, body := o.body.(finding := f.(signals := signals)))
    else o.(text := o.compactText)
  }

  function CompactAll(entries: seq<Entry>): (compacted: seq<Entry>)
    ensures |compacted| == |entries|
  {
    seq(|entries|, i requires 0 <= i < |entries| => entries[i].(outcome := Compact(entries[i].outcome)))
  }

  function OutcomesOf(entries: seq<Entry>): (outcomes: seq<Outcome>)
    ensures |outcomes| == |entries|
  {
    seq(|entries|, i requires 0 <= i < |entries| => entries[i].outcome)
  }

  // ---- Shrinking the global context ----

  function TotalEntries(lists: seq<seq<string>>): nat {
    if lists == [] then 0 else |lists[0]| + TotalEntries(lists[1..])
  }

  lemma {:induction false} ReplaceList(lists: seq<seq<string>>, k: nat, shorter: seq<string>)
    requires k < |lists|
    ensures TotalEntries(lists[k := shorter]) == TotalEntries(lists) - |lists[k]| + |shorter|
  {
    if k > 0 {
      assert lists[k := shorter][1..] == lists[1..][k - 1 := shorter];
      ReplaceList(lists[1..], k - 1, shorter);
    } else {
      assert lists[k := shorter][1..] == lists[1..];
    }
  }

  /** The first non-empty list with the most bytes among lists[..n]. */
  function Largest(lists: seq<seq<string>>, n: nat): (k: nat)
    requires n <= |lists| && exists i :: 0 <= i < n && lists[i] != []
    ensures k < n && lists[k] != []
    ensures forall i :: 0 <= i < n && lists[i] != [] ==> ListBytes(lists[i]) <= ListBytes(lists[k])
    ensures forall i :: 0 <= i < k && lists[i] != [] ==> ListBytes(lists[i]) < ListBytes(lists[k])
  {
    if lists[n - 1] == [] then Largest(lists, n - 1)
    else if forall i | 0 <= i < n - 1 :: lists[i] == [] then n - 1
    else
      var k := Largest(lists, n - 1);
      if ListBytes(lists[n - 1]) > ListBytes(lists[k]) then n - 1 else k
  }

  function HalveLargest(lists: seq<seq<string>>): (halved: seq<seq<string>>)
    requires exists i :: 0 <= i < |lists| && lists[i] != []
    ensures |halved| == |lists| && TotalEntries(halved) < TotalEntries(lists)
    ensures forall i :: 0 <= i < |lists| ==> halved[i] <= lists[i]
  {
    var k := Largest(lists, |lists|);
    ReplaceList(lists, k, lists[k][..|lists[k]| / 2]);
    lists[k := lists[k][..|lists[k]| / 2]]
  }

  function Shrink(r: Reducer): (c: Context)
    decreases TotalEntries(r.context.lists)
  {
    if Bytes(r) <= CAP then r.context
    else if exists i | 0 <= i < |r.context.lists| :: r.context.lists[i] != [] then
      Shrink(r.(context := r.context.(lists := HalveLargest(r.context.lists))))
    else r.context.(redraft := None)
  }

  /** Every array keeps a front part; the result fits, or nothing is left to cut;
      and a reducer that fits is not touched. */
  lemma {:induction false} ShrinkKeepsFronts(r: Reducer)
    ensures var c := Shrink(r);
            && c.head == r.context.head
            && |c.lists| == |r.context.lists|
            && (forall i :: 0 <= i < |c.lists| ==> c.lists[i] <= r.context.lists[i])
            && (Bytes(r.(context := c)) <= CAP || (c.redraft == None && forall i :: 0 <= i < |c.lists| ==> c.lists[i] == []))
            && (c.redraft != r.context.redraft ==> forall i :: 0 <= i < |c.lists| ==> c.lists[i] == [])
            && (Bytes(r) <= CAP ==> c == r.context)
    decreases TotalEntries(r.context.lists)
  {
    hide Bytes, HalveLargest;
    if Bytes(r) > CAP && exists i | 0 <= i < |r.context.lists| :: r.context.lists[i] != [] {
      var next := r.(context := r.context.(lists := HalveLargest(r.context.lists)));
      ShrinkKeepsFronts(next);
      assert r.(context := Shrink(r)) == next.(context := Shrink(next));
    } else if Bytes(r) <= CAP {
      assert r.(context := r.context) == r;
    }
  }

  // ---- Names of omitted protected findings ----

  function VerdictText(v: Verdict): string
    requires v == Shipped || v == Superseded
  {
    if v == Shipped then "shipped" else "superseded"
  }

  function NameOf(o: Outcome): string
    requires Protected(o)
  {
    o.itemId + ":" + VerdictText(o.body.finding.verdict.value)
  }

  /** namedTerminalOmissions: the omitted protected entries, in priority order. */
  function NamesOf(entries: seq<Entry>, omitted: set<nat>): seq<string> {
    if entries == [] then []
    else (if entries[0].originalIndex in omitted && Protected(entries[0].outcome) then [NameOf(entries[0].outcome)] else [])
         + NamesOf(entries[1..], omitted)
  }

  /** omittedProtectedTerminalKeys: the protected entries that were not kept. */
  function Omitted(entries: seq<Entry>, kept: seq<bool>): (omitted: set<nat>)
    requires |kept| == |entries|
    ensures forall k :: k in omitted <==> exists i :: 0 <= i < |entries| && entries[i].originalIndex == k && !kept[i] && Protected(entries[i].outcome)
  {
    set i | 0 <= i < |entries| && !kept[i] && Protected(entries[i].outcome) :: entries[i].originalIndex
  }

  function OmissionDiagnostics(chunks: seq<seq<string>>): (ds: seq<Diagnostic>)
    ensures |ds| == |chunks|
  {
    seq(|chunks|, i requires 0 <= i < |chunks| => Diagnostic(OMITTED_CODE, Message(chunks[i]), Some(OMITTED_PATH + Decimal(i + 1))))
  }

  /** The messages that name the given findings, or None when they cannot be named. */
  function NamingChunks(names: seq<string>, slots: int): Option<seq<seq<string>>> {
    if names == [] then Some([]) else Chunk(names, slots)
  }

  // ---- One attempt, and the loop ----

  datatype Env = Env(head: string, context: Context, base: seq<Diagnostic>, entries: seq<Entry>)

  datatype Attempt = CannotFit | Fitted(chunks: seq<seq<string>>, kept: seq<bool>, next: set<nat>)

  datatype Settling = Unfit(omitted: set<nat>) | Settled(named: set<nat>, chunks: seq<seq<string>>, kept: seq<bool>, converged: bool)

  /** Weight the outcomes may have, counting one comma each. */
  function OutcomeRoom(head: string, context: Context, diagnostics: seq<Diagnostic>): int {
    CAP + 1 - FixedBytes(head, context) - ListBytes(DiagnosticTexts(diagnostics))
  }

  function Room(env: Env, chunks: seq<seq<string>>): int {
    OutcomeRoom(env.head, env.context, env.base + OmissionDiagnostics(chunks))
  }

  function Weights(entries: seq<Entry>): (weights: seq<nat>)
    ensures |weights| == |entries|
  {
    seq(|entries|, i requires 0 <= i < |entries| => Utf8Length(entries[i].outcome.text) + 1)
  }

  /** Name the given omissions, then fit the outcomes into the room that is left. */
  function Try(env: Env, omitted: set<nat>): (a: Attempt)
    ensures a.Fitted? ==> |a.kept| == |env.entries|
  {
    match NamingChunks(NamesOf(env.entries, omitted), DIAGNOSTICS_MAX - |env.base|)
    case None => CannotFit
    case Some(chunks) =>
      var room := Room(env, chunks);
      if room < 1 then CannotFit
      else
        var kept := Pick(Weights(env.entries), room);
        Fitted(chunks, kept, Omitted(env.entries, kept))
  }

  /** Repeat until the omissions named are the omissions made, or attempts run out. */
  function Settle(env: Env, omitted: set<nat>, attempts: nat): (s: Settling)
    requires attempts > 0
    ensures s.Settled? ==> |s.kept| == |env.entries|
    decreases attempts
  {
    match Try(env, omitted)
    case CannotFit => Unfit(omitted)
    case Fitted(chunks, kept, next) =>
      if next == omitted then Settled(omitted, chunks, kept, true)
      else if attempts == 1 then Settled(omitted, chunks, kept, false)
      else Settle(env, next, attempts - 1)
  }

  // ---- The whole function ----

  function CapExceeded(bytes: nat): Diagnostic {
    Diagnostic("reducer-input-byte-cap-exceeded", "Reducer input is " + Decimal(bytes) + " bytes; cap is " + Decimal(CAP) + ".", None)
  }

  function ContextTruncated(): Diagnostic {
    Diagnostic("reducer-input-global-context-truncated", "Reducer global context was truncated to fit the byte cap.", None)
  }

  function DroppedFront(observed: nat): string {
    "Reducer input outcomes were semantically pruned to fit the byte cap; observed " + Decimal(observed) + ", retained "
  }

  function DroppedBack(): string {
    ". Protected terminal findings are retained first; omitted protected terminals are named separately."
  }

  function OutcomesDropped(observed: nat, retained: string): Diagnostic {
    Diagnostic("reducer-input-outcomes-dropped", DroppedFront(observed) + retained + DroppedBack(), None)
  }

  function PruneEnv(r: Reducer, entries: seq<Entry>): Env {
    Env(r.head, r.context, r.diagnostics + [OutcomesDropped(|entries|, "pending")], entries)
  }

  /** The loop as it is started: nothing named yet, at most n + 2 attempts. */
  function Search(r: Reducer, entries: seq<Entry>): (s: Settling)
    ensures s.Settled? ==> |s.kept| == |entries|
  {
    Settle(PruneEnv(r, entries), {}, |entries| + 2)
  }

  /** selectReducerOutcomesUnderCap. */
  function Prune(r: Reducer, entries: seq<Entry>): Result {
    match Search(r, entries)
    case Unfit(omitted) => CannotName(NamesOf(entries, omitted))
    case Settled(_, chunks, kept, _) =>
      var outcomes := Selected(OutcomesOf(entries), kept);
      var note := if |outcomes| < |entries| then [OutcomesDropped(|entries|, Decimal(|outcomes|))] else [];
      Ok(Reducer(r.head, r.context, outcomes, r.diagnostics + note + OmissionDiagnostics(chunks)))
  }

  /** The reducer once its context is shrunk and its outcomes are compacted. */
  function Compacted(r: Reducer): Reducer {
    var diagnostics := [CapExceeded(Bytes(r)), ContextTruncated()];
    Reducer(r.head, Shrink(r.(diagnostics := diagnostics)), OutcomesOf(CompactAll(Prioritize(r.outcomes))), diagnostics)
  }

  /** buildBacklogCurationReducerInput. */
  function Build(head: string, context: Context, outcomes: seq<Outcome>): Result {
    var whole := Reducer(head, context, outcomes, []);
    if Bytes(whole) <= CAP then Ok(whole)
    else
      var compacted := Compacted(whole);
      if Bytes(compacted) <= CAP then Ok(compacted)
      else Prune(compacted, CompactAll(Prioritize(outcomes)))
  }
}
