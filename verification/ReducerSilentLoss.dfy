/** A silent loss for every reducer head and context of ordinary size: fourteen protected
    findings, none of them over 12,000 bytes and none longer compacted than as given. */
module ReducerSilentLoss {
  import opened Text
  import opened GreedyPacking
  import opened NameChunks
  import opened ReducerInput
  import opened ReducerSelection
  import opened ReducerByteCap
  import opened ReducerConvergence
  import opened ReducerLoop
  import opened ReducerOscillation

  const COUNT := 14
  const FRONT := 12
  const TEXT_MAX := 12000
  const SPARE := 7500
  const SHIPPED := Found(Finding(Change, Some(Shipped), 0), false)
  const A := "a:shipped"
  const B := "bb:shipped"

  function Repeat(n: nat): (s: string)
    ensures |s| == n && Plain(s)
  {
    seq(n, i => 'x')
  }

  // ---- The outcomes ----

  function IdOf(i: nat): string {
    if i == FRONT then "a" else if i == FRONT + 1 then "bb" else Repeat(i + 3)
  }

  /** Findings of 12,000 bytes each whose compacted texts have the given sizes. */
  function Outcomes(sizes: seq<nat>): (outcomes: seq<Outcome>)
    ensures |outcomes| == |sizes|
  {
    seq(|sizes|, i requires 0 <= i < |sizes| => Outcome(IdOf(i), SHIPPED, Repeat(TEXT_MAX), Repeat(sizes[i])))
  }

  lemma OutcomeIs(sizes: seq<nat>, i: nat)
    requires i < |sizes|
    ensures var o := Outcomes(sizes)[i];
            (Protected(o) && o.itemId == IdOf(i) && Utf8Length(o.text) == TEXT_MAX && Utf8Length(o.compactText) == sizes[i])
  {
    hide Repeat, Utf8Length;
    PlainBytes(Repeat(TEXT_MAX));
    PlainBytes(Repeat(sizes[i]));
  }

  lemma IdsDiffer(i: nat, j: nat)
    requires i < j < COUNT
    ensures IdOf(i) != IdOf(j)
  {
    hide Repeat;
    assert |IdOf(i)| == (if i == FRONT then 1 else if i == FRONT + 1 then 2 else i + 3);
    assert |IdOf(j)| == (if j == FRONT then 1 else if j == FRONT + 1 then 2 else j + 3);
  }

  lemma ItemsAreDistinct(sizes: seq<nat>)
    requires |sizes| == COUNT
    ensures DistinctItems(Outcomes(sizes))
  {
    hide IdOf;
    forall i, j | 0 <= i < j < |sizes|
      ensures Outcomes(sizes)[i].itemId != Outcomes(sizes)[j].itemId
    {
      IdsDiffer(i, j);
    }
  }

  // ---- Protected outcomes keep their order ----

  lemma {:induction false} WholeBucket(entries: seq<Entry>, priority: nat)
    requires forall i :: 0 <= i < |entries| ==> entries[i].priority == priority
    ensures Bucket(entries, priority) == entries
  {
    if entries != [] {
      WholeBucket(entries[1..], priority);
    }
  }

  lemma {:induction false} EmptyBucket(entries: seq<Entry>, priority: nat)
    requires forall i :: 0 <= i < |entries| ==> entries[i].priority < priority
    ensures Bucket(entries, priority) == []
  {
    if entries != [] {
      EmptyBucket(entries[1..], priority);
    }
  }

  lemma {:induction false} EmptyBuckets(entries: seq<Entry>, priority: nat)
    requires forall i :: 0 <= i < |entries| ==> entries[i].priority < priority
    ensures BucketsFrom(entries, priority) == []
    decreases 9 - priority
  {
    if priority <= 8 {
      EmptyBucket(entries, priority);
      EmptyBuckets(entries, priority + 1);
    }
  }

  lemma ProtectedStayInOrder(outcomes: seq<Outcome>)
    requires forall i :: 0 <= i < |outcomes| ==> Protected(outcomes[i])
    ensures Prioritize(outcomes) == EntriesOf(outcomes)
  {
    hide Protected, Bucket;
    var entries := EntriesOf(outcomes);
    WholeBucket(entries, 0);
    EmptyBuckets(entries, 1);
    assert entries + [] == entries;
  }

  lemma EntriesAre(sizes: seq<nat>)
    ensures |CompactedEntries(Outcomes(sizes))| == |sizes|
    ensures forall i :: 0 <= i < |sizes| ==> CompactedEntries(Outcomes(sizes))[i] == Entry(Compact(Outcomes(sizes)[i]), i, 0)
  {
    hide Repeat, IdOf, Prioritize, Compact, Protected, Outcomes;
    var outcomes := Outcomes(sizes);
    forall i | 0 <= i < |sizes|
      ensures Protected(outcomes[i])
    {
      OutcomeIs(sizes, i);
    }
    ProtectedStayInOrder(outcomes);
  }

  lemma EntryIs(sizes: seq<nat>, i: nat)
    requires i < |sizes|
    ensures var o := Compact(Outcomes(sizes)[i]);
            (Protected(o) && NameOf(o) == IdOf(i) + ":" + VerdictText(Shipped) && Utf8Length(o.text) == sizes[i])
  {
    hide Repeat, IdOf, Utf8Length;
    OutcomeIs(sizes, i);
  }

  lemma WeightsAre(sizes: seq<nat>)
    ensures Weights(CompactedEntries(Outcomes(sizes))) == seq(|sizes|, i requires 0 <= i < |sizes| => sizes[i] + 1)
  {
    hide Outcomes, CompactedEntries, Compact, Utf8Length, IdOf;
    EntriesAre(sizes);
    forall i | 0 <= i < |sizes|
      ensures Weights(CompactedEntries(Outcomes(sizes)))[i] == sizes[i] + 1
    {
      EntryIs(sizes, i);
    }
  }

  // ---- Sizes ----

  /** The context once nothing more can be cut from it. */
  function Emptied(c: Context): Context {
    Context(c.head, seq(|c.lists|, _ => []), None)
  }

  function Whole(head: string, context: Context, sizes: seq<nat>): Reducer {
    Reducer(head, context, Outcomes(sizes), [])
  }

  function Texts(n: nat): seq<string> {
    seq(n, _ => Repeat(TEXT_MAX))
  }

  lemma TextsAre(sizes: seq<nat>)
    ensures OutcomeTexts(Outcomes(sizes)) == Texts(|sizes|)
  {
    hide Repeat, IdOf;
  }

  lemma {:induction false} TextsWeight(n: nat)
    ensures Weight(Texts(n)) == n * (TEXT_MAX + 1)
  {
    hide Utf8Length, Repeat;
    if n > 0 {
      assert Texts(n)[1..] == Texts(n - 1);
      PlainBytes(Repeat(TEXT_MAX));
      TextsWeight(n - 1);
    }
  }

  /** With these outcomes no context makes the reducer fit, before they are compacted. */
  lemma NeverFits(head: string, context: Context, sizes: seq<nat>, diagnostics: seq<Diagnostic>)
    requires |sizes| == COUNT
    ensures Bytes(Reducer(head, context, Outcomes(sizes), diagnostics)) > CAP
    ensures diagnostics == [] ==> Bytes(Reducer(head, context, Outcomes(sizes), diagnostics)) == FixedBytes(head, context) + COUNT * (TEXT_MAX + 1) - 1
  {
    hide Bytes, FixedBytes, Weight, Outcomes, DiagnosticTexts, ListBytes, Texts, Utf8Length;
    var r := Reducer(head, context, Outcomes(sizes), diagnostics);
    BytesAreAdditive(r);
    TextsAre(sizes);
    TextsWeight(COUNT);
    ListBytesIsWeight(Texts(COUNT));
    ListBytesIsWeight(DiagnosticTexts(diagnostics));
    SomeTexts(COUNT);
    if diagnostics == [] {
      assert DiagnosticTexts(diagnostics) == [] by {
        NoTexts();
      }
    }
  }

  lemma NoTexts()
    ensures DiagnosticTexts([]) == []
  {
  }

  lemma SomeTexts(n: nat)
    requires n > 0
    ensures Texts(n) != []
  {
    assert |Texts(n)| == n;
  }

  lemma ShrinkEmpties(head: string, context: Context, sizes: seq<nat>, diagnostics: seq<Diagnostic>)
    requires |sizes| == COUNT
    ensures Shrink(Reducer(head, context, Outcomes(sizes), diagnostics)) == Emptied(context)
  {
    hide Bytes, Shrink, Outcomes;
    var r := Reducer(head, context, Outcomes(sizes), diagnostics);
    ShrinkKeepsFronts(r);
    NeverFits(head, Shrink(r), sizes, diagnostics);
    assert Shrink(r).lists == Emptied(context).lists;
  }

  // ---- The loop's diagnostics ----

  /** What pruning starts from: the size does not depend on the compacted texts. */
  function Start(bytes: nat): seq<Diagnostic> {
    [CapExceeded(bytes), ContextTruncated()]
  }

  function Base(bytes: nat): seq<Diagnostic> {
    Start(bytes) + [OutcomesDropped(COUNT, "pending")]
  }

  function WholeBytes(head: string, context: Context): nat {
    FixedBytes(head, context) + COUNT * (TEXT_MAX + 1) - 1
  }

  lemma CompactedIs(head: string, context: Context, sizes: seq<nat>)
    requires |sizes| == COUNT
    ensures Compacted(Whole(head, context, sizes))
         == Reducer(head, Emptied(context), OutcomesOf(CompactedEntries(Outcomes(sizes))), Start(WholeBytes(head, context)))
    ensures Bytes(Whole(head, context, sizes)) > CAP
  {
    hide Bytes, Shrink, Outcomes, FixedBytes, CapExceeded, ContextTruncated, Prioritize, CompactAll, OutcomesOf;
    NeverFits(head, context, sizes, []);
    ShrinkEmpties(head, context, sizes, Start(WholeBytes(head, context)));
  }

  lemma DiagnosticBound(d: Diagnostic)
    requires d.path == None
    ensures Utf8Length(DiagnosticText(d)) <= 24 * (|d.code| + |d.message|) + 400
  {
    hide Utf8Length, Escape;
  }

  lemma Tens()
    ensures Pow10(2) == 100 && Pow10(6) == 1000000 && Pow10(7) == 10000000
  {
    assert Pow10(1) == 10 && Pow10(3) == 1000;
    assert Pow10(4) == 10000 && Pow10(5) == 100000;
  }

  lemma CapExceededLength(bytes: nat)
    requires |Decimal(bytes)| <= 7 && |Decimal(CAP)| <= 6
    ensures CapExceeded(bytes).path == None && |CapExceeded(bytes).code| + |CapExceeded(bytes).message| <= 250
  {
    hide Decimal;
  }

  lemma OutcomesDroppedLength(observed: nat, retained: string)
    requires |Decimal(observed)| <= 2 && |retained| <= 7
    ensures OutcomesDropped(observed, retained).path == None
    ensures |OutcomesDropped(observed, retained).code| + |OutcomesDropped(observed, retained).message| <= 250
  {
    hide Decimal;
  }

  function NoteBytes(): nat {
    Utf8Length(DiagnosticText(OutcomesDropped(COUNT, "pending")))
  }

  lemma StartBound(bytes: nat)
    requires bytes < 10000000
    ensures ListBytes(DiagnosticTexts(Base(bytes))) == ListBytes(DiagnosticTexts(Start(bytes))) + 1 + NoteBytes()
    ensures NoteBytes() <= 6400 && ListBytes(DiagnosticTexts(Base(bytes))) <= 19500
  {
    hide DiagnosticText, CapExceeded, OutcomesDropped, ContextTruncated, Decimal, Utf8Length, ListBytes, Pow10;
    Tens();
    DecimalLength(bytes, 7);
    DecimalLength(CAP, 6);
    DecimalLength(COUNT, 2);
    CapExceededLength(bytes);
    OutcomesDroppedLength(COUNT, "pending");
    TruncatedLength();
    DiagnosticBound(CapExceeded(bytes));
    DiagnosticBound(ContextTruncated());
    DiagnosticBound(OutcomesDropped(COUNT, "pending"));
    ThreeDiagnostics(CapExceeded(bytes), ContextTruncated(), OutcomesDropped(COUNT, "pending"));
  }

  lemma TruncatedLength()
    ensures ContextTruncated().path == None && |ContextTruncated().code| + |ContextTruncated().message| <= 250
  {
  }

  lemma ThreeDiagnostics(a: Diagnostic, b: Diagnostic, c: Diagnostic)
    ensures ListBytes(DiagnosticTexts([a, b])) == Utf8Length(DiagnosticText(a)) + Utf8Length(DiagnosticText(b)) + 1
    ensures ListBytes(DiagnosticTexts([a, b] + [c])) == ListBytes(DiagnosticTexts([a, b])) + 1 + Utf8Length(DiagnosticText(c))
  {
    hide DiagnosticText, Utf8Length, ListBytes;
    DiagnosticTextsAppend([a, b], [c]);
    ListBytesIsWeight(DiagnosticTexts([a, b]));
    ListBytesIsWeight(DiagnosticTexts([a, b] + [c]));
    WeightAppend(DiagnosticTexts([a, b]), DiagnosticTexts([c]));
    var two, one := DiagnosticTexts([a, b]), DiagnosticTexts([c]);
    assert two == [DiagnosticText(a), DiagnosticText(b)] && one == [DiagnosticText(c)];
    assert two[1..] == [DiagnosticText(b)] && two[1..][1..] == [] && one[1..] == [];
  }

  // ---- What naming costs ----

  lemma CostBound(name: string)
    requires |name| <= 10
    ensures Cost(name) <= 3900 && Cost(name) == EscapedBytes(name) + 2 + Overhead(1)
  {
    hide EscapedBytes, Utf8Length, Escape, Decimal;
    OneDigit();
    assert Overhead(1) == MessageOverhead(1);
    assert [name][1..] == [];
    assert NameBytes([name]) == EscapedBytes(name);
  }

  lemma OneDigit()
    ensures |Decimal(1)| == 1
  {
    DecimalLength(1, 1);
  }

  lemma Costs(a: string, b: string)
    requires Plain(a) && Plain(b) && |a| < |b| <= 10
    ensures Cost(a) < Cost(b) <= 3900
  {
    hide EscapedBytes, Cost, Plain;
    CostBound(a);
    CostBound(b);
    PlainEscapedBytes(a);
    PlainEscapedBytes(b);
  }

  lemma ShortNameFits(name: string)
    requires |name| <= 20
    ensures Fits([name])
  {
    assert [name][1..] == [];
    assert TotalLength([name]) == |name|;
  }

  lemma NamesAre()
    ensures IdOf(FRONT) + ":" + VerdictText(Shipped) == A && IdOf(FRONT + 1) + ":" + VerdictText(Shipped) == B
    ensures Plain(A) && Plain(B) && |A| == 9 && |B| == 10
  {
    hide Repeat;
  }

  // ---- The sizes that start the seesaw ----

  /** Eleven equal sizes, one that takes what is left of the front, and the two that
      trade places. */
  function Sizes(front: nat, first: nat, second: nat): (sizes: seq<nat>)
    requires front >= FRONT
    ensures |sizes| == COUNT
  {
    seq(COUNT, i => if i < FRONT - 1 then front / FRONT - 1
                    else if i == FRONT - 1 then front - (FRONT - 1) * (front / FRONT) - 1
                    else if i == FRONT then first else second)
  }

  lemma {:induction false} TotalOfEqual(weights: seq<nat>, w: nat)
    requires forall i :: 0 <= i < |weights| ==> weights[i] == w
    ensures Total(weights) == |weights| * w
  {
    if weights != [] {
      TotalOfEqual(weights[1..], w);
    }
  }

  lemma {:induction false} TotalSnoc(weights: seq<nat>, w: nat)
    ensures Total(weights + [w]) == Total(weights) + w
  {
    if weights == [] {
      assert weights + [w] == [w] && [w][1..] == [];
    } else {
      assert (weights + [w])[1..] == weights[1..] + [w];
      TotalSnoc(weights[1..], w);
    }
  }

  lemma SizesFill(front: nat, first: nat, second: nat)
    requires front >= FRONT
    ensures var weights := Weights(CompactedEntries(Outcomes(Sizes(front, first, second))));
            (|weights| == COUNT && Total(weights[..FRONT]) == front && weights[FRONT] == first + 1 && weights[FRONT + 1] == second + 1)
  {
    hide Weights, CompactedEntries, Outcomes, Total;
    var sizes := Sizes(front, first, second);
    WeightsAre(sizes);
    var weights := Weights(CompactedEntries(Outcomes(sizes)));
    var equal := weights[..FRONT - 1];
    TotalOfEqual(equal, front / FRONT);
    TotalSnoc(equal, weights[FRONT - 1]);
    assert weights[..FRONT] == equal + [weights[FRONT - 1]];
  }

  lemma SizesAreOrdinary(front: nat, first: nat, second: nat)
    requires 80000 <= front <= 132600 && 7000 <= first <= 11500 && 7000 <= second <= 11500
    ensures forall i :: 0 <= i < COUNT ==> 6000 <= Sizes(front, first, second)[i] <= TEXT_MAX
  {
  }

  // ---- The loss ----

  /** The room that the loop has before anything is named. */
  function StartRoom(head: string, context: Context): int {
    CAP + 1 - FixedBytes(head, Emptied(context)) - ListBytes(DiagnosticTexts(Base(WholeBytes(head, context))))
  }

  /** A head and a context that leave most of the cap to the outcomes. */
  predicate Ordinary(head: string, context: Context) {
    FixedBytes(head, Emptied(context)) <= 10000 && FixedBytes(head, context) <= 1000000
  }

  lemma StartRoomBound(head: string, context: Context)
    requires Ordinary(head, context)
    ensures 110500 <= StartRoom(head, context) <= 140001
  {
    hide FixedBytes, DiagnosticTexts, ListBytes, Base, Start, NoteBytes, Emptied;
    var bytes := WholeBytes(head, context);
    StartBound(bytes);
  }

  lemma RoomIs(head: string, context: Context, sizes: seq<nat>, env: Env)
    requires |sizes| == COUNT
    requires env == PruneEnv(Compacted(Whole(head, context, sizes)), CompactedEntries(Outcomes(sizes)))
    ensures |env.base| == 3 && env.entries == CompactedEntries(Outcomes(sizes)) && Room(env, []) == StartRoom(head, context)
  {
    hide Compacted, CompactedEntries, Outcomes, FixedBytes, DiagnosticTexts, ListBytes, WholeBytes, CapExceeded, ContextTruncated, OutcomesDropped, Whole, Emptied;
    EntriesAre(sizes);
    CompactedIs(head, context, sizes);
    var none: seq<seq<string>> := [];
    assert env.base == Base(WholeBytes(head, context));
    assert env.base + OmissionDiagnostics(none) == env.base;
  }

  /** Compacted, the findings are still too many for the cap. */
  lemma StillTooMany(head: string, context: Context, sizes: seq<nat>)
    requires Ordinary(head, context) && |sizes| == COUNT
    requires Total(Weights(CompactedEntries(Outcomes(sizes)))) >= StartRoom(head, context) + SPARE
    ensures Bytes(Compacted(Whole(head, context, sizes))) > CAP
  {
    hide Bytes, Compacted, CompactedEntries, Outcomes, FixedBytes, DiagnosticTexts, Total, Weights, Whole, Emptied, OutcomesOf, Base, NoteBytes, Start;
    CompactedIs(head, context, sizes);
    var r := Compacted(Whole(head, context, sizes));
    var entries := CompactedEntries(Outcomes(sizes));
    BytesAreAdditive(r);
    StartBound(WholeBytes(head, context));
    EntriesAre(sizes);
    WeightIsTotal(entries);
    ListBytesIsWeight(OutcomeTexts(r.outcomes));
    StartRoomBound(head, context);
  }

  lemma {:induction false} WeightIsTotal(entries: seq<Entry>)
    ensures Weight(OutcomeTexts(OutcomesOf(entries))) == Total(Weights(entries))
  {
    hide Utf8Length;
    if entries != [] {
      WeightIsTotal(entries[1..]);
      assert OutcomeTexts(OutcomesOf(entries))[1..] == OutcomeTexts(OutcomesOf(entries[1..]));
      assert Weights(entries)[1..] == Weights(entries[1..]);
    }
  }

  /** The front takes what the two costs and the spare bytes leave of the room; the first
      is as large as naming the second, the second as naming the first, and the spare. */
  lemma TunedSizes(room: int, a: nat, b: nat) returns (front: nat, first: nat, second: nat)
    requires 110500 <= room <= 140001 && a < b <= 3900
    ensures 80000 <= front <= 132600 && 7000 <= second < first <= 11500
    ensures Trade(room - front, a, b, first + 1, second + 1) && front + (first + 1) + (second + 1) >= room + SPARE
  {
    front, first, second := room - a - b - SPARE, b + SPARE - 1, a + SPARE - 1;
  }

  lemma TotalOfAll(weights: seq<nat>)
    requires |weights| == COUNT
    ensures Total(weights) == Total(weights[..FRONT]) + weights[FRONT] + weights[FRONT + 1]
  {
    hide Total;
    TotalSnoc(weights[..FRONT + 1], weights[FRONT + 1]);
    TotalSnoc(weights[..FRONT], weights[FRONT]);
    assert weights == weights[..FRONT + 1] + [weights[FRONT + 1]];
    assert weights[..FRONT + 1] == weights[..FRONT] + [weights[FRONT]];
  }

  /** What the loop has to work with. */
  lemma EnvIs(head: string, context: Context, sizes: seq<nat>, env: Env, front: nat, first: nat, second: nat)
    requires front >= FRONT && sizes == Sizes(front, first, second)
    requires env == PruneEnv(Compacted(Whole(head, context, sizes)), CompactedEntries(Outcomes(sizes)))
    ensures env.entries == CompactedEntries(Outcomes(sizes)) && EndsInTwo(env, FRONT)
    ensures Left(env, FRONT) == StartRoom(head, context) - front
    ensures Weights(env.entries)[FRONT] == first + 1 && Weights(env.entries)[FRONT + 1] == second + 1
  {
    hide Compacted, CompactedEntries, Outcomes, StartRoom, Room, Total, Weights, Whole, Sizes, EndsInTwo, Left;
    RoomIs(head, context, sizes, env);
    SizesFill(front, first, second);
    RoomLeft(env, StartRoom(head, context), front);
    EndsWell(env, sizes);
  }

  /** The names of the two findings behind the front. */
  ghost predicate EndNames(entries: seq<Entry>, a: string, b: string) {
    && |entries| == FRONT + 2 && entries[FRONT].originalIndex == FRONT && entries[FRONT + 1].originalIndex == FRONT + 1
    && Protected(entries[FRONT].outcome) && Protected(entries[FRONT + 1].outcome)
    && a == NameOf(entries[FRONT].outcome) && b == NameOf(entries[FRONT + 1].outcome)
  }

  lemma EndNamesAre(sizes: seq<nat>)
    requires |sizes| == COUNT
    ensures EndNames(CompactedEntries(Outcomes(sizes)), A, B)
  {
    hide CompactedEntries, Outcomes, Compact, Protected, IdOf, NameOf, Repeat;
    EntriesAre(sizes);
    EntryIs(sizes, FRONT);
    EntryIs(sizes, FRONT + 1);
    NamesAre();
  }

  lemma SeesawStarts(env: Env, a: string, b: string, left: int, first: nat, second: nat)
    requires EndNames(env.entries, a, b) && EndsInTwo(env, FRONT) && left == Left(env, FRONT)
    requires Weights(env.entries)[FRONT] == first && Weights(env.entries)[FRONT + 1] == second
    requires Fits([a]) && Fits([b]) && Trade(left, Cost(a), Cost(b), first, second)
    ensures Alternates(env, FRONT, FRONT, FRONT + 1, a, b)
  {
    hide Weights, Left, NameOf, Fits, Trade, Cost, Alternates, Protected;
    SeesawAlternates(env, FRONT, a, b, first, second, left);
  }

  lemma RoomLeft(env: Env, room: int, front: nat)
    requires |env.entries| == COUNT && Room(env, []) == room && Total(Weights(env.entries)[..FRONT]) == front
    ensures Left(env, FRONT) == room - front
  {
    hide Room, Total, Weights;
  }

  lemma EndsWell(env: Env, sizes: seq<nat>)
    requires |sizes| == COUNT && |env.base| == 3 && env.entries == CompactedEntries(Outcomes(sizes))
    ensures EndsInTwo(env, FRONT)
  {
    hide CompactedEntries, Outcomes, Compact, Protected, IdOf;
    EntriesAre(sizes);
    EntryIs(sizes, FRONT);
    EntryIs(sizes, FRONT + 1);
  }

  lemma PruningIsNeeded(head: string, context: Context, sizes: seq<nat>, front: nat, first: nat, second: nat)
    requires Ordinary(head, context) && front >= FRONT && sizes == Sizes(front, first, second)
    requires front + (first + 1) + (second + 1) >= StartRoom(head, context) + SPARE
    ensures NeedsPruning(head, context, Outcomes(sizes))
  {
    hide Compacted, CompactedEntries, Outcomes, Weights, StartRoom, Total, Bytes, Ordinary, Sizes;
    SizesFill(front, first, second);
    TotalOfAll(Weights(CompactedEntries(Outcomes(sizes))));
    StillTooMany(head, context, sizes);
    CompactedIs(head, context, sizes);
  }

  /** What comes back: the first twelve and the last, with only the last named. */
  ghost predicate ThirteenthIsLost(result: Result, outcomes: seq<Outcome>) {
    && |outcomes| == COUNT && Protected(outcomes[FRONT + 1])
    && result.Ok? && |result.reducer.outcomes| == COUNT - 1
    && (forall i :: 0 <= i < FRONT ==> result.reducer.outcomes[i] == Compact(outcomes[i]))
    && result.reducer.outcomes[FRONT] == Compact(outcomes[FRONT + 1])
    && NamesOnly(result.reducer, [NameOf(outcomes[FRONT + 1])])
  }

  lemma LosesThirteenth(head: string, context: Context, outcomes: seq<Outcome>, sizes: seq<nat>, a: string, b: string)
    requires outcomes == Outcomes(sizes) && |sizes| == COUNT && NeedsPruning(head, context, outcomes)
    requires EndNames(CompactedEntries(outcomes), a, b)
    requires Alternates(PruneEnv(Compacted(Reducer(head, context, outcomes, [])), CompactedEntries(outcomes)), FRONT, FRONT, FRONT + 1, a, b)
    ensures ThirteenthIsLost(Build(head, context, outcomes), outcomes)
  {
    hide Build, NeedsPruning, NamesOnly, Compact, NameOf, Outcomes, CompactedEntries, Compacted, Alternates, Protected, OutcomesOf, PruneEnv;
    EntriesAre(sizes);
    LastName(sizes, a, b);
    AlternatingLosesSilently(head, context, outcomes, FRONT, FRONT, FRONT + 1, a, b);
    FrontOutcomes(CompactedEntries(outcomes));
  }

  /** Findings of an ordinary size: no compacted text is longer than the text. */
  predicate OrdinaryOutcome(o: Outcome) {
    Protected(o) && 6000 <= Utf8Length(o.compactText) <= Utf8Length(o.text) <= TEXT_MAX
  }

  lemma OutcomesAreOrdinary(front: nat, first: nat, second: nat)
    requires 80000 <= front <= 132600 && 7000 <= first <= 11500 && 7000 <= second <= 11500
    ensures forall i :: 0 <= i < COUNT ==> OrdinaryOutcome(Outcomes(Sizes(front, first, second))[i])
  {
    hide Outcomes, Sizes, Utf8Length, Protected;
    SizesAreOrdinary(front, first, second);
    forall i | 0 <= i < COUNT
      ensures OrdinaryOutcome(Outcomes(Sizes(front, first, second))[i])
    {
      OutcomeIs(Sizes(front, first, second), i);
    }
  }

  /** A silent loss, for every ordinary head and context: there are fourteen protected
      findings of distinct items, none over 12,000 bytes and none longer compacted than
      as given, for which the function returns normally with the first twelve and the
      last, names only the last as omitted, and names the thirteenth, which it dropped,
      nowhere. */
  lemma SilentLoss(head: string, context: Context) returns (outcomes: seq<Outcome>)
    requires Ordinary(head, context)
    ensures |outcomes| == COUNT && DistinctItems(outcomes) && NeedsPruning(head, context, outcomes)
    ensures forall i :: 0 <= i < COUNT ==> OrdinaryOutcome(outcomes[i])
    ensures ThirteenthIsLost(Build(head, context, outcomes), outcomes)
  {
    hide Build, NeedsPruning, Outcomes, Sizes, Ordinary, DistinctItems, OrdinaryOutcome, ThirteenthIsLost, Cost, StartRoom, Trade, Fits, EndNames, CompactedEntries, Compacted, PruneEnv, Alternates, EndsInTwo, Left, Weights;
    NamesAre();
    Costs(A, B);
    StartRoomBound(head, context);
    var front, first, second := TunedSizes(StartRoom(head, context), Cost(A), Cost(B));
    var sizes := Sizes(front, first, second);
    outcomes := Outcomes(sizes);
    ItemsAreDistinct(sizes);
    OutcomesAreOrdinary(front, first, second);
    EndNamesAre(sizes);
    ShortNameFits(A);
    ShortNameFits(B);
    PruningIsNeeded(head, context, sizes, front, first, second);
    var env := PruneEnv(Compacted(Whole(head, context, sizes)), CompactedEntries(outcomes));
    EnvIs(head, context, sizes, env, front, first, second);
    SeesawStarts(env, A, B, StartRoom(head, context) - front, first + 1, second + 1);
    LosesThirteenth(head, context, outcomes, sizes, A, B);
  }

  lemma LastName(sizes: seq<nat>, a: string, b: string)
    requires |sizes| == COUNT && EndNames(CompactedEntries(Outcomes(sizes)), a, b)
    ensures Protected(Outcomes(sizes)[FRONT + 1]) && NameOf(Outcomes(sizes)[FRONT + 1]) == b
  {
    hide Outcomes, CompactedEntries;
    EntriesAre(sizes);
    OutcomeIs(sizes, FRONT + 1);
  }

  lemma FrontOutcomes(entries: seq<Entry>)
    requires |entries| == COUNT
    ensures var kept := OutcomesOf(entries)[..FRONT] + [entries[FRONT + 1].outcome];
            (|kept| == COUNT - 1 && kept[FRONT] == entries[FRONT + 1].outcome && forall i :: 0 <= i < FRONT ==> kept[i] == entries[i].outcome)
  {
  }
}
