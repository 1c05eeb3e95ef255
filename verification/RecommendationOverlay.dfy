/** The recommendation overlay of backlog-curation-recommendation-overlay.ts: a
    five-lane model is rewritten against a draft's status changes and validated. */
module RecommendationOverlay {
  import opened Text

  // ---- Data ----

  datatype Status = Candidate | Planned | Active | Shipped | Stale | Superseded | Unknown(text: string)

  datatype Lifecycle =
    | NoLifecycle | LifecyclePlanned | LifecycleActive | Queue | Build | PrOpen
    | Merged | LifecycleShipped | Failed | LifecyclePartial

  datatype Record = Record(id: string, status: Status, lifecycle: Option<Lifecycle>)

  datatype StatusChange = StatusChange(id: string, status: Status)

  datatype ItemRef = ItemRef(itemId: string, ref: Option<string>, rationale: Option<string>, confidence: Option<string>)

  datatype Group = Group(ref: string, itemIds: seq<string>, epicIds: Option<seq<string>>, rationale: Option<string>)

  datatype Chain = Chain(ref: Option<string>, itemIds: seq<string>, blockedBy: seq<string>, rationale: Option<string>)

  /** One line of rationaleAndAssumptions; the overlay's own sentence is kept as the
      ids it lists. */
  datatype Note = Written(text: string) | Adjusted(items: set<string>, epics: set<string>, moved: set<string>)

  datatype Model = Model(
    activeWork: seq<ItemRef>, readyCandidates: seq<ItemRef>, nextSequence: seq<ItemRef>,
    groups: seq<Group>, chains: seq<Chain>, notes: seq<Note>)

  datatype Lane = ActiveWork | ReadyCandidates | NextSequence | GroupItems(group: string) | ChainItems(chain: Option<string>)

  datatype Move = Move(itemId: string, from: Lane, to: Lane)

  // ---- Statuses, catalogs and changes ----

  predicate Closed(s: Status) {
    s.Shipped? || s.Stale? || s.Superseded?
  }

  predicate ActiveLifecycle(l: Option<Lifecycle>) {
    l in {Some(LifecycleActive), Some(Queue), Some(Build), Some(PrOpen)}
  }

  /** new Map(records.map(...)): the last record with an id wins. */
  function Catalog(records: seq<Record>): map<string, Record> {
    if records == [] then map[]
    else Catalog(records[..|records| - 1])[records[|records| - 1].id := records[|records| - 1]]
  }

  /** deriveStatusChanges: the last change of an id wins. */
  function Changes(changes: seq<StatusChange>): map<string, Status> {
    if changes == [] then map[]
    else Changes(changes[..|changes| - 1])[changes[|changes| - 1].id := changes[|changes| - 1].status]
  }

  function ApplyChanges(records: seq<Record>, changes: map<string, Status>): (changed: seq<Record>)
    ensures |changed| == |records|
  {
    seq(|records|, i requires 0 <= i < |records| =>
      if records[i].id in changes then records[i].(status := changes[records[i].id]) else records[i])
  }

  /** Changing the records changes the catalog entry by entry. */
  lemma {:induction false} CatalogAfterChanges(records: seq<Record>, changes: map<string, Status>)
    ensures var before, after := Catalog(records), Catalog(ApplyChanges(records, changes));
            && after.Keys == before.Keys
            && forall id :: id in before ==>
                 && before[id].id == id
                 && after[id] == if id in changes then before[id].(status := changes[id]) else before[id]
  {
    if records != [] {
      var front := records[..|records| - 1];
      CatalogAfterChanges(front, changes);
      var changed := ApplyChanges(records, changes);
      assert changed[..|changed| - 1] == ApplyChanges(front, changes);
    }
  }

  // ---- The fate of one reference ----

  /** What the overlay reads: the prospective catalogs and the draft's changes. */
  datatype Env = Env(items: map<string, Record>, epics: map<string, Record>, itemChanges: map<string, Status>, epicChanges: map<string, Status>)

  predicate ClosedByDraft(changes: map<string, Status>, id: string) {
    id in changes && Closed(changes[id])
  }

  predicate ProspectivelyActive(env: Env, id: string) {
    if id in env.itemChanges then env.itemChanges[id] == Active
    else id in env.items && (env.items[id].status == Active || ActiveLifecycle(env.items[id].lifecycle))
  }

  datatype Fate = Remove | ToActive | ToReady | Keep

  function FateOf(env: Env, id: string, inActiveWork: bool): Fate {
    if ClosedByDraft(env.itemChanges, id) then Remove
    else if ProspectivelyActive(env, id) && !inActiveWork then ToActive
    else if id in env.itemChanges && env.itemChanges[id] == Planned && inActiveWork then ToReady
    else Keep
  }

  // ---- Lists of references ----

  function IdSet(refs: seq<ItemRef>): set<string> {
    set r | r in refs :: r.itemId
  }

  function WithFate(env: Env, refs: seq<ItemRef>, inActiveWork: bool, fate: Fate): seq<ItemRef> {
    if refs == [] then []
    else
      var last := refs[|refs| - 1];
      WithFate(env, refs[..|refs| - 1], inActiveWork, fate) + (if FateOf(env, last.itemId, inActiveWork) == fate then [last] else [])
  }

  function MovesOf(env: Env, refs: seq<ItemRef>, lane: Lane): seq<Move> {
    if refs == [] then []
    else
      var last := refs[|refs| - 1];
      MovesOf(env, refs[..|refs| - 1], lane)
      + match FateOf(env, last.itemId, lane == ActiveWork)
        case ToActive => [Move(last.itemId, lane, ActiveWork)]
        case ToReady => [Move(last.itemId, lane, ReadyCandidates)]
        case _ => []
  }

  function RemovedIds(env: Env, ids: set<string>): set<string> {
    set id | id in ids && ClosedByDraft(env.itemChanges, id)
  }

  /** The first reference of each id, in order. */
  function Unique(refs: seq<ItemRef>): seq<ItemRef> {
    if refs == [] then []
    else
      var front, last := refs[..|refs| - 1], refs[|refs| - 1];
      Unique(front) + (if last.itemId in IdSet(front) then [] else [last])
  }

  /** The references whose id is not in `known`. */
  function Without(refs: seq<ItemRef>, known: set<string>): seq<ItemRef> {
    if refs == [] then []
    else Without(refs[..|refs| - 1], known) + (if refs[|refs| - 1].itemId in known then [] else [refs[|refs| - 1]])
  }

  // ---- Groups and chains ----

  function RefsOf(ids: seq<string>, rationale: Option<string>): (refs: seq<ItemRef>)
    ensures |refs| == |ids|
  {
    seq(|ids|, i requires 0 <= i < |ids| => ItemRef(ids[i], None, rationale, None))
  }

  function IdsOf(refs: seq<ItemRef>): (ids: seq<string>)
    ensures |ids| == |refs|
  {
    seq(|refs|, i requires 0 <= i < |refs| => refs[i].itemId)
  }

  function KeptIds(env: Env, ids: seq<string>): seq<string> {
    IdsOf(WithFate(env, RefsOf(ids, None), false, Keep))
  }

  predicate RemovedEpic(env: Env, epicId: string) {
    ClosedByDraft(env.epicChanges, epicId) && epicId in env.epics
  }

  function KeptEpics(env: Env, ids: seq<string>): seq<string> {
    if ids == [] then []
    else KeptEpics(env, ids[..|ids| - 1]) + (if RemovedEpic(env, ids[|ids| - 1]) then [] else [ids[|ids| - 1]])
  }

  predicate RemovedBlocker(env: Env, id: string) {
    ClosedByDraft(env.itemChanges, id) || id !in env.items
  }

  function KeptBlockers(env: Env, ids: seq<string>): seq<string> {
    if ids == [] then []
    else KeptBlockers(env, ids[..|ids| - 1]) + (if RemovedBlocker(env, ids[|ids| - 1]) then [] else [ids[|ids| - 1]])
  }

  function OverlayGroup(env: Env, g: Group): seq<Group> {
    var itemIds := KeptIds(env, g.itemIds);
    if itemIds == [] && g.itemIds != [] then []
    else [g.(itemIds := itemIds, epicIds := if g.epicIds.Some? then Some(KeptEpics(env, g.epicIds.value)) else None)]
  }

  function OverlayChain(env: Env, c: Chain): seq<Chain> {
    var itemIds := KeptIds(env, c.itemIds);
    if itemIds == [] then [] else [c.(itemIds := itemIds, blockedBy := KeptBlockers(env, c.blockedBy))]
  }

  function OverlayGroups(env: Env, groups: seq<Group>): seq<Group> {
    if groups == [] then [] else OverlayGroups(env, groups[..|groups| - 1]) + OverlayGroup(env, groups[|groups| - 1])
  }

  function OverlayChains(env: Env, chains: seq<Chain>): seq<Chain> {
    if chains == [] then [] else OverlayChains(env, chains[..|chains| - 1]) + OverlayChain(env, chains[|chains| - 1])
  }

  function GroupRefs(groups: seq<Group>): seq<ItemRef> {
    if groups == [] then []
    else GroupRefs(groups[..|groups| - 1]) + RefsOf(groups[|groups| - 1].itemIds, groups[|groups| - 1].rationale)
  }

  function ChainRefs(chains: seq<Chain>): seq<ItemRef> {
    if chains == [] then []
    else ChainRefs(chains[..|chains| - 1]) + RefsOf(chains[|chains| - 1].itemIds, chains[|chains| - 1].rationale)
  }

  function GroupMoves(env: Env, groups: seq<Group>): seq<Move> {
    if groups == [] then []
    else
      var g := groups[|groups| - 1];
      GroupMoves(env, groups[..|groups| - 1]) + MovesOf(env, RefsOf(g.itemIds, g.rationale), GroupItems(g.ref))
  }

  function ChainMoves(env: Env, chains: seq<Chain>): seq<Move> {
    if chains == [] then []
    else
      var c := chains[|chains| - 1];
      ChainMoves(env, chains[..|chains| - 1]) + MovesOf(env, RefsOf(c.itemIds, c.rationale), ChainItems(c.ref))
  }

  function GroupIds(groups: seq<Group>): set<string> {
    set g, id | g in groups && id in g.itemIds :: id
  }

  function GroupEpics(groups: seq<Group>): set<string> {
    set g, id | g in groups && g.epicIds.Some? && id in g.epicIds.value :: id
  }

  function ChainIds(chains: seq<Chain>): set<string> {
    set c, id | c in chains && id in c.itemIds :: id
  }

  function BlockerIds(chains: seq<Chain>): set<string> {
    set c, id | c in chains && id in c.blockedBy :: id
  }

  // ---- The overlay ----

  datatype Overlaid = Overlaid(model: Model, removedItems: set<string>, removedEpics: set<string>, moves: seq<Move>)

  function NonActiveIds(m: Model): set<string> {
    IdSet(m.readyCandidates) + IdSet(m.nextSequence) + GroupIds(m.groups) + ChainIds(m.chains)
  }

  function LaneIds(m: Model): set<string> {
    IdSet(m.activeWork) + NonActiveIds(m)
  }

  /** The lanes before moved references are put in their new lane. */
  function Filtered(env: Env, m: Model): Model {
    Model(WithFate(env, m.activeWork, true, Keep), WithFate(env, m.readyCandidates, false, Keep), WithFate(env, m.nextSequence, false, Keep),
      OverlayGroups(env, m.groups), OverlayChains(env, m.chains), m.notes)
  }

  function NonActiveRefs(m: Model): seq<ItemRef> {
    m.readyCandidates + m.nextSequence + GroupRefs(m.groups) + ChainRefs(m.chains)
  }

  function MovedToActive(env: Env, m: Model): seq<ItemRef> {
    Unique(WithFate(env, NonActiveRefs(m), false, ToActive))
  }

  function MovedToReady(env: Env, m: Model): seq<ItemRef> {
    Unique(WithFate(env, m.activeWork, true, ToReady))
  }

  function AllMoves(env: Env, m: Model): seq<Move> {
    MovesOf(env, m.activeWork, ActiveWork) + MovesOf(env, m.readyCandidates, ReadyCandidates) + MovesOf(env, m.nextSequence, NextSequence)
    + GroupMoves(env, m.groups) + ChainMoves(env, m.chains)
  }

  function RemovedItems(env: Env, m: Model): set<string> {
    RemovedIds(env, LaneIds(m) + BlockerIds(m.chains))
  }

  function RemovedEpics(env: Env, m: Model): set<string> {
    set id | id in GroupEpics(m.groups) && RemovedEpic(env, id)
  }

  function AppendNote(notes: seq<Note>, items: set<string>, epics: set<string>, moves: seq<Move>): seq<Note> {
    if items == {} && epics == {} && moves == [] then notes
    else notes + [Adjusted(items, epics, set m | m in moves :: m.itemId)]
  }

  function Overlay(env: Env, m: Model): Overlaid {
    var f := Filtered(env, m);
    var items, epics, moves := RemovedItems(env, m), RemovedEpics(env, m), AllMoves(env, m);
    Overlaid(
      Model(Unique(f.activeWork + Without(MovedToActive(env, m), IdSet(f.activeWork))),
        Unique(f.readyCandidates + Without(MovedToReady(env, m), NonActiveIds(f))),
        Unique(f.nextSequence), f.groups, f.chains,
        AppendNote(m.notes, items, epics, moves)),
      items, epics, moves)
  }

  // ---- Basic facts ----

  lemma {:induction false} WithFateIds(env: Env, refs: seq<ItemRef>, inActiveWork: bool, fate: Fate)
    ensures forall r :: r in WithFate(env, refs, inActiveWork, fate) <==> r in refs && FateOf(env, r.itemId, inActiveWork) == fate
    ensures IdSet(WithFate(env, refs, inActiveWork, fate)) == set id | id in IdSet(refs) && FateOf(env, id, inActiveWork) == fate
  {
    if refs != [] {
      var front, last := refs[..|refs| - 1], refs[|refs| - 1];
      WithFateIds(env, front, inActiveWork, fate);
      assert refs == front + [last];
    }
  }

  lemma IdSetAppend(a: seq<ItemRef>, b: seq<ItemRef>)
    ensures IdSet(a + b) == IdSet(a) + IdSet(b)
  {
  }

  ghost predicate DistinctIds(refs: seq<ItemRef>) {
    forall i, j :: 0 <= i < j < |refs| ==> refs[i].itemId != refs[j].itemId
  }

  lemma {:induction false} UniqueIds(refs: seq<ItemRef>)
    ensures IdSet(Unique(refs)) == IdSet(refs) && forall r :: r in Unique(refs) ==> r in refs
  {
    if refs != [] {
      var front, last := refs[..|refs| - 1], refs[|refs| - 1];
      UniqueIds(front);
      assert refs == front + [last];
      IdSetAppend(front, [last]);
      IdSetAppend(Unique(front), [last]);
    }
  }

  lemma {:induction false} UniqueIsDistinct(refs: seq<ItemRef>)
    ensures DistinctIds(Unique(refs))
  {
    if refs != [] {
      var front, last := refs[..|refs| - 1], refs[|refs| - 1];
      UniqueIsDistinct(front);
      UniqueIds(front);
      forall i | 0 <= i < |Unique(front)|
        ensures Unique(front)[i].itemId in IdSet(front)
      {
        assert Unique(front)[i] in Unique(front);
      }
    }
  }

  lemma {:induction false} UniqueOfDistinct(refs: seq<ItemRef>)
    requires DistinctIds(refs)
    ensures Unique(refs) == refs
  {
    if refs != [] {
      UniqueOfDistinct(refs[..|refs| - 1]);
    }
  }

  lemma {:induction false} WithoutIds(refs: seq<ItemRef>, known: set<string>)
    ensures forall r :: r in Without(refs, known) <==> r in refs && r.itemId !in known
    ensures IdSet(Without(refs, known)) == IdSet(refs) - known
  {
    if refs != [] {
      var front, last := refs[..|refs| - 1], refs[|refs| - 1];
      WithoutIds(front, known);
      assert refs == front + [last];
    }
  }
}
