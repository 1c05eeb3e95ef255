/** The recommendation validator, and why the overlay's output passes it. */
module OverlayValidity {
  import opened Text
  import opened RecommendationOverlay
  import opened OverlayResults

  datatype Reason = UnknownId | ClosedId | EmptyGroup | WrongLane

  datatype Where = At(lane: Lane, index: nat) | Within(lane: Lane) | EpicsOf(group: string) | BlockersOf(chain: Option<string>)

  datatype Issue = Issue(where: Where, id: string, reason: Reason)

  type Catalogs = map<string, Record>

  // ---- The checks of one reference ----

  predicate OpenIn(catalog: Catalogs, id: string) {
    id in catalog && !Closed(catalog[id].status)
  }

  predicate FitsLane(catalog: Catalogs, id: string, inActiveWork: bool)
    requires id in catalog
  {
    if inActiveWork then catalog[id].status == Active || ActiveLifecycle(catalog[id].lifecycle)
    else catalog[id].status != Active
  }

  function OpenIssues(where: Where, id: string, catalog: Catalogs): (issues: seq<Issue>)
    ensures issues == [] <==> OpenIn(catalog, id)
  {
    if id !in catalog then [Issue(where, id, UnknownId)]
    else if Closed(catalog[id].status) then [Issue(where, id, ClosedId)]
    else []
  }

  function LaneIssues(where: Where, id: string, catalog: Catalogs, inActiveWork: bool): (issues: seq<Issue>)
    ensures issues == [] <==> (OpenIn(catalog, id) ==> FitsLane(catalog, id, inActiveWork))
  {
    if OpenIn(catalog, id) && !FitsLane(catalog, id, inActiveWork) then [Issue(where, id, WrongLane)] else []
  }

  function RefIssues(where: Where, id: string, catalog: Catalogs, inActiveWork: bool): seq<Issue> {
    OpenIssues(where, id, catalog) + LaneIssues(where, id, catalog, inActiveWork)
  }

  // ---- The validator ----

  function LaneRefIssues(refs: seq<ItemRef>, lane: Lane, catalog: Catalogs): seq<Issue> {
    if refs == [] then []
    else
      var n := |refs| - 1;
      LaneRefIssues(refs[..n], lane, catalog) + RefIssues(At(lane, n), refs[n].itemId, catalog, lane == ActiveWork)
  }

  function ItemIssues(ids: seq<string>, lane: Lane, catalog: Catalogs): seq<Issue> {
    if ids == [] then []
    else ItemIssues(ids[..|ids| - 1], lane, catalog) + RefIssues(Within(lane), ids[|ids| - 1], catalog, false)
  }

  function ReferenceIssues(ids: seq<string>, where: Where, catalog: Catalogs): seq<Issue> {
    if ids == [] then []
    else ReferenceIssues(ids[..|ids| - 1], where, catalog) + OpenIssues(where, ids[|ids| - 1], catalog)
  }

  function GroupIssues(g: Group, items: Catalogs, epics: Catalogs): seq<Issue> {
    (if g.itemIds == [] then [Issue(Within(GroupItems(g.ref)), "", EmptyGroup)] else [])
    + ItemIssues(g.itemIds, GroupItems(g.ref), items)
    + (if g.epicIds.Some? then ReferenceIssues(g.epicIds.value, EpicsOf(g.ref), epics) else [])
  }

  function ChainIssues(c: Chain, items: Catalogs): seq<Issue> {
    ItemIssues(c.itemIds, ChainItems(c.ref), items) + ReferenceIssues(c.blockedBy, BlockersOf(c.ref), items)
  }

  function GroupsIssues(groups: seq<Group>, items: Catalogs, epics: Catalogs): seq<Issue> {
    if groups == [] then []
    else GroupsIssues(groups[..|groups| - 1], items, epics) + GroupIssues(groups[|groups| - 1], items, epics)
  }

  function ChainsIssues(chains: seq<Chain>, items: Catalogs): seq<Issue> {
    if chains == [] then []
    else ChainsIssues(chains[..|chains| - 1], items) + ChainIssues(chains[|chains| - 1], items)
  }

  /** collectProspectiveRecommendationValidationIssues. */
  function Issues(m: Model, items: Catalogs, epics: Catalogs): seq<Issue> {
    LaneRefIssues(m.activeWork, ActiveWork, items) + LaneRefIssues(m.readyCandidates, ReadyCandidates, items)
    + LaneRefIssues(m.nextSequence, NextSequence, items) + GroupsIssues(m.groups, items, epics) + ChainsIssues(m.chains, items)
  }

  // ---- Validity, stated without the issue list ----

  ghost predicate ValidItems(ids: set<string>, catalog: Catalogs, inActiveWork: bool) {
    forall id :: id in ids ==> OpenIn(catalog, id) && FitsLane(catalog, id, inActiveWork)
  }

  ghost predicate AllOpen(ids: set<string>, catalog: Catalogs) {
    forall id :: id in ids ==> OpenIn(catalog, id)
  }

  ghost predicate Valid(m: Model, items: Catalogs, epics: Catalogs) {
    && ValidItems(IdSet(m.activeWork), items, true)
    && ValidItems(NonActiveIds(m), items, false)
    && (forall g :: g in m.groups ==> g.itemIds != [])
    && AllOpen(GroupEpics(m.groups), epics)
    && AllOpen(BlockerIds(m.chains), items)
  }

  lemma ValidItemsAdd(ids: set<string>, id: string, catalog: Catalogs, inActiveWork: bool)
    ensures ValidItems(ids + {id}, catalog, inActiveWork)
       <==> ValidItems(ids, catalog, inActiveWork) && OpenIn(catalog, id) && FitsLane(catalog, id, inActiveWork)
  {
    hide OpenIn, FitsLane;
    assert id in ids + {id};
  }

  lemma NothingInvalid(catalog: Catalogs, inActiveWork: bool)
    ensures ValidItems({}, catalog, inActiveWork) && AllOpen({}, catalog)
  {
  }

  lemma RefIssuesAre(where: Where, id: string, catalog: Catalogs, inActiveWork: bool)
    ensures RefIssues(where, id, catalog, inActiveWork) == [] <==> OpenIn(catalog, id) && FitsLane(catalog, id, inActiveWork)
  {
    hide FitsLane;
  }

  lemma AllOpenUnion(a: set<string>, b: set<string>, catalog: Catalogs)
    ensures AllOpen(a + b, catalog) <==> AllOpen(a, catalog) && AllOpen(b, catalog)
  {
    hide OpenIn;
    if AllOpen(a + b, catalog) {
      assert forall id :: id in a ==> id in a + b;
      assert forall id :: id in b ==> id in a + b;
    }
  }

  lemma ValidItemsUnion(a: set<string>, b: set<string>, catalog: Catalogs, inActiveWork: bool)
    ensures ValidItems(a + b, catalog, inActiveWork) <==> ValidItems(a, catalog, inActiveWork) && ValidItems(b, catalog, inActiveWork)
  {
    hide OpenIn, FitsLane;
    if ValidItems(a + b, catalog, inActiveWork) {
      assert forall id :: id in a ==> id in a + b;
      assert forall id :: id in b ==> id in a + b;
    }
  }

  lemma GroupEpicsSnoc(front: seq<Group>, g: Group)
    ensures GroupEpics(front + [g]) == GroupEpics(front) + (if g.epicIds.Some? then Elements(g.epicIds.value) else {})
  {
  }

  lemma BlockerIdsSnoc(front: seq<Chain>, c: Chain)
    ensures BlockerIds(front + [c]) == BlockerIds(front) + Elements(c.blockedBy)
  {
  }

  lemma {:induction false} LaneRefsValid(refs: seq<ItemRef>, lane: Lane, catalog: Catalogs)
    ensures LaneRefIssues(refs, lane, catalog) == [] <==> ValidItems(IdSet(refs), catalog, lane == ActiveWork)
  {
    hide OpenIn, FitsLane, ValidItems, RefIssues;
    if refs != [] {
      var front, last := refs[..|refs| - 1], refs[|refs| - 1];
      LaneRefsValid(front, lane, catalog);
      assert refs == front + [last];
      IdSetAppend(front, [last]);
      assert IdSet([last]) == {last.itemId};
      ValidItemsAdd(IdSet(front), last.itemId, catalog, lane == ActiveWork);
      RefIssuesAre(At(lane, |front|), last.itemId, catalog, lane == ActiveWork);
    } else {
      assert IdSet(refs) == {};
      NothingInvalid(catalog, lane == ActiveWork);
    }
  }

  lemma {:induction false} ItemsValid(ids: seq<string>, lane: Lane, catalog: Catalogs)
    ensures ItemIssues(ids, lane, catalog) == [] <==> ValidItems(Elements(ids), catalog, false)
  {
    hide OpenIn, FitsLane, ValidItems, RefIssues;
    if ids != [] {
      var front, last := ids[..|ids| - 1], ids[|ids| - 1];
      ItemsValid(front, lane, catalog);
      assert ids == front + [last];
      assert Elements(ids) == Elements(front) + {last};
      ValidItemsAdd(Elements(front), last, catalog, false);
      RefIssuesAre(Within(lane), last, catalog, false);
    } else {
      assert Elements(ids) == {};
      NothingInvalid(catalog, false);
    }
  }

  lemma {:induction false} ReferencesOpen(ids: seq<string>, where: Where, catalog: Catalogs)
    ensures ReferenceIssues(ids, where, catalog) == [] <==> AllOpen(Elements(ids), catalog)
  {
    hide OpenIn;
    if ids != [] {
      var front, last := ids[..|ids| - 1], ids[|ids| - 1];
      ReferencesOpen(front, where, catalog);
      assert ids == front + [last];
      assert Elements(ids) == Elements(front) + {last};
    }
  }

  lemma {:induction false} GroupsValid(groups: seq<Group>, items: Catalogs, epics: Catalogs)
    ensures GroupsIssues(groups, items, epics) == [] <==>
              ValidItems(GroupIds(groups), items, false) && (forall g :: g in groups ==> g.itemIds != []) && AllOpen(GroupEpics(groups), epics)
  {
    hide OpenIn, FitsLane, ItemIssues, ReferenceIssues, Elements;
    if groups != [] {
      var front, g := groups[..|groups| - 1], groups[|groups| - 1];
      GroupsValid(front, items, epics);
      assert groups == front + [g];
      GroupIdsSnoc(front, g);
      ItemsValid(g.itemIds, GroupItems(g.ref), items);
      ValidItemsUnion(GroupIds(front), Elements(g.itemIds), items, false);
      GroupEpicsSnoc(front, g);
      AllOpenUnion(GroupEpics(front), if g.epicIds.Some? then Elements(g.epicIds.value) else {}, epics);
      if g.epicIds.Some? {
        ReferencesOpen(g.epicIds.value, EpicsOf(g.ref), epics);
      }
    }
  }

  lemma {:induction false} ChainsValid(chains: seq<Chain>, items: Catalogs)
    ensures ChainsIssues(chains, items) == [] <==> ValidItems(ChainIds(chains), items, false) && AllOpen(BlockerIds(chains), items)
  {
    hide OpenIn, FitsLane, ItemIssues, ReferenceIssues;
    if chains != [] {
      var front, c := chains[..|chains| - 1], chains[|chains| - 1];
      ChainsValid(front, items);
      assert chains == front + [c];
      ChainIdsSnoc(front, c);
      BlockerIdsSnoc(front, c);
      ValidItemsUnion(ChainIds(front), Elements(c.itemIds), items, false);
      AllOpenUnion(BlockerIds(front), Elements(c.blockedBy), items);
      ItemsValid(c.itemIds, ChainItems(c.ref), items);
      ReferencesOpen(c.blockedBy, BlockersOf(c.ref), items);
    }
  }

  /** The validator finds nothing exactly when the model is valid. */
  lemma NoIssuesIffValid(m: Model, items: Catalogs, epics: Catalogs)
    ensures Issues(m, items, epics) == [] <==> Valid(m, items, epics)
  {
    LaneRefsValid(m.activeWork, ActiveWork, items);
    LaneRefsValid(m.readyCandidates, ReadyCandidates, items);
    LaneRefsValid(m.nextSequence, NextSequence, items);
    GroupsValid(m.groups, items, epics);
    ChainsValid(m.chains, items);
    hide OpenIn, FitsLane, LaneRefIssues, GroupsIssues, ChainsIssues, IdSet, GroupIds, ChainIds;
  }

  // ---- Preservation ----

  ghost predicate Prospective(current: Catalogs, changes: map<string, Status>, prospective: Catalogs) {
    && prospective.Keys == current.Keys
    && forall id :: id in current ==>
         prospective[id] == if id in changes then current[id].(status := changes[id]) else current[id]
  }

  /** An activeWork item that the draft gives an open status other than active or
      planned, and that no lifecycle keeps active. */
  ghost predicate Misfit(current: Catalogs, changes: map<string, Status>, id: string) {
    && id in changes && !Closed(changes[id]) && changes[id] != Active && changes[id] != Planned
    && id in current && !ActiveLifecycle(current[id].lifecycle)
  }

  lemma OverlaidOthersValid(env: Env, m: Model, current: Catalogs)
    requires Prospective(current, env.itemChanges, env.items)
    requires ValidItems(IdSet(m.activeWork), current, true) && ValidItems(NonActiveIds(m), current, false)
    ensures ValidItems(NonActiveIds(Overlay(env, m).model), env.items, false)
  {
    OverlaidLanes(env, m);
    hide Overlay, IdSet, GroupIds, ChainIds;
  }

  lemma OverlaidActiveValid(env: Env, m: Model, current: Catalogs)
    requires Prospective(current, env.itemChanges, env.items)
    requires ValidItems(IdSet(m.activeWork), current, true) && ValidItems(NonActiveIds(m), current, false)
    ensures ValidItems(IdSet(Overlay(env, m).model.activeWork), env.items, true)
       <==> !exists id :: id in IdSet(m.activeWork) && Misfit(current, env.itemChanges, id)
  {
    OverlaidLanes(env, m);
    hide Overlay, IdSet, NonActiveIds, Staying;
    var o := Overlay(env, m).model;
    if id :| id in IdSet(m.activeWork) && Misfit(current, env.itemChanges, id) {
      assert id in IdSet(o.activeWork);
      assert !FitsLane(env.items, id, true);
    } else {
      forall id | id in IdSet(o.activeWork)
        ensures OpenIn(env.items, id) && FitsLane(env.items, id, true)
      {
        if id in IdSet(m.activeWork) && FateOf(env, id, true) == Keep {
          assert !Misfit(current, env.itemChanges, id);
        }
      }
    }
  }

  lemma OverlaidGroupValid(env: Env, g: Group, o: Group)
    requires g.itemIds != [] && OverlayGroup(env, g) == [o]
    ensures o.itemIds != []
    ensures o.epicIds.Some? ==> g.epicIds.Some? && Elements(o.epicIds.value) <= Elements(g.epicIds.value)
  {
    hide KeptIds, KeptEpics;
    if g.epicIds.Some? {
      KeptEpicsAre(env, g.epicIds.value);
    }
  }

  lemma {:induction false} OverlaidGroupsValid(env: Env, groups: seq<Group>)
    requires forall g :: g in groups ==> g.itemIds != []
    ensures forall g :: g in OverlayGroups(env, groups) ==> g.itemIds != []
    ensures GroupEpics(OverlayGroups(env, groups)) <= GroupEpics(groups)
  {
    hide OverlayGroup, GroupEpics;
    if groups != [] {
      var front, g := groups[..|groups| - 1], groups[|groups| - 1];
      OverlaidGroupsValid(env, front);
      assert groups == front + [g];
      GroupEpicsSnoc(front, g);
      GroupIsSingle(env, g);
      if OverlayGroup(env, g) != [] {
        var o := OverlayGroup(env, g)[0];
        assert OverlayGroup(env, g) == [o];
        OverlaidGroupValid(env, g, o);
        GroupEpicsSnoc(OverlayGroups(env, front), o);
      } else {
        assert OverlayGroups(env, groups) == OverlayGroups(env, front);
      }
    } else {
      assert OverlayGroups(env, groups) == groups;
    }
  }

  lemma OverlaidChainBlockers(env: Env, c: Chain, o: Chain)
    requires OverlayChain(env, c) == [o]
    ensures Elements(o.blockedBy) <= Elements(c.blockedBy)
  {
    hide KeptIds, KeptBlockers;
    KeptBlockersAre(env, c.blockedBy);
  }

  lemma {:induction false} OverlaidBlockers(env: Env, chains: seq<Chain>)
    ensures BlockerIds(OverlayChains(env, chains)) <= BlockerIds(chains)
  {
    hide OverlayChain, BlockerIds;
    if chains != [] {
      var front, c := chains[..|chains| - 1], chains[|chains| - 1];
      OverlaidBlockers(env, front);
      assert chains == front + [c];
      BlockerIdsSnoc(front, c);
      ChainIsSingle(env, c);
      if OverlayChain(env, c) != [] {
        var o := OverlayChain(env, c)[0];
        assert OverlayChain(env, c) == [o];
        OverlaidChainBlockers(env, c, o);
        BlockerIdsSnoc(OverlayChains(env, front), o);
      } else {
        assert OverlayChains(env, chains) == OverlayChains(env, front);
      }
    } else {
      assert OverlayChains(env, chains) == chains;
    }
  }

  /** A reference open before stays open unless the draft closes it. */
  lemma StaysOpen(before: set<string>, after: set<string>, current: Catalogs, changes: map<string, Status>, prospective: Catalogs)
    requires Prospective(current, changes, prospective) && AllOpen(before, current) && after <= before
    requires forall id :: id in after ==> !(ClosedByDraft(changes, id) && id in prospective)
    ensures AllOpen(after, prospective)
  {
  }

  /** Validity preservation: a model without issues against the current catalogs
      overlays to one without issues against the prospective catalogs, exactly when
      the draft makes no activeWork item a misfit. */
  lemma OverlayPreservesValidity(env: Env, m: Model, items: Catalogs, epics: Catalogs)
    requires Prospective(items, env.itemChanges, env.items) && Prospective(epics, env.epicChanges, env.epics)
    requires Issues(m, items, epics) == []
    ensures Issues(Overlay(env, m).model, env.items, env.epics) == []
       <==> !exists id :: id in IdSet(m.activeWork) && Misfit(items, env.itemChanges, id)
  {
    hide Issues, Misfit, IdSet, GroupEpics, BlockerIds, NonActiveIds, ValidItems, OverlayGroups, OverlayChains, Overlay, AllOpen, Prospective, OpenIn;
    var o := Overlay(env, m).model;
    NoIssuesIffValid(m, items, epics);
    NoIssuesIffValid(o, env.items, env.epics);
    OverlaidOthersValid(env, m, items);
    OverlaidActiveValid(env, m, items);
    OverlaidReferencesValid(env, m, items, epics);
  }

  lemma OverlaidReferencesValid(env: Env, m: Model, items: Catalogs, epics: Catalogs)
    requires Prospective(items, env.itemChanges, env.items) && Prospective(epics, env.epicChanges, env.epics)
    requires (forall g :: g in m.groups ==> g.itemIds != []) && AllOpen(GroupEpics(m.groups), epics) && AllOpen(BlockerIds(m.chains), items)
    ensures var o := Overlay(env, m).model;
            && (forall g :: g in o.groups ==> g.itemIds != [])
            && AllOpen(GroupEpics(o.groups), env.epics) && AllOpen(BlockerIds(o.chains), env.items)
  {
    hide GroupEpics, BlockerIds, OverlayGroups, OverlayChains, AllOpen, Prospective, WithFate, Unique, Without, MovedToActive, MovedToReady, AppendNote, RemovedItems, RemovedEpics, AllMoves;
    OverlaidGroupsValid(env, m.groups);
    OverlaidBlockers(env, m.chains);
    BlockersKept(env, m.chains);
    EpicsKept(env, m.groups);
    StaysOpen(GroupEpics(m.groups), GroupEpics(OverlayGroups(env, m.groups)), epics, env.epicChanges, env.epics);
    StaysOpen(BlockerIds(m.chains), BlockerIds(OverlayChains(env, m.chains)), items, env.itemChanges, env.items);
  }

  /** Whatever model comes in, the only references the validator can find in the
      wrong lane afterwards are activeWork references the overlay left in place. */
  lemma WrongLaneOnlyInActiveWork(env: Env, m: Model, current: Catalogs, id: string)
    requires Prospective(current, env.itemChanges, env.items) && OpenIn(env.items, id)
    ensures var o := Overlay(env, m).model;
            && (id in NonActiveIds(o) ==> FitsLane(env.items, id, false))
            && (id in IdSet(o.activeWork) && !FitsLane(env.items, id, true) ==> id in IdSet(m.activeWork) && FateOf(env, id, true) == Keep)
  {
    OverlaidLanes(env, m);
    hide Overlay, IdSet, GroupIds, ChainIds;
  }

  // ---- The projection of a draft ----

  function ProjectionEnv(items: seq<Record>, epics: seq<Record>, itemChanges: seq<StatusChange>, epicChanges: seq<StatusChange>): Env {
    var ic, ec := Changes(itemChanges), Changes(epicChanges);
    Env(Catalog(ApplyChanges(items, ic)), Catalog(ApplyChanges(epics, ec)), ic, ec)
  }

  /** The last of the records with its id. */
  ghost predicate LastRecord(records: seq<Record>, record: Record) {
    exists i :: 0 <= i < |records| && records[i] == record && forall j :: i < j < |records| ==> records[j].id != record.id
  }

  ghost predicate LastChange(changes: seq<StatusChange>, change: StatusChange) {
    exists i :: 0 <= i < |changes| && changes[i] == change && forall j :: i < j < |changes| ==> changes[j].id != change.id
  }

  lemma LastRecordSnoc(front: seq<Record>, last: Record, record: Record)
    ensures LastRecord(front + [last], record) <==> record == last || (record.id != last.id && LastRecord(front, record))
  {
    var records := front + [last];
    assert records[|front|] == last;
    if record != last && LastRecord(records, record) {
      var i :| 0 <= i < |records| && records[i] == record && forall j :: i < j < |records| ==> records[j].id != record.id;
      assert front[i] == record;
      assert forall j :: i < j < |front| ==> front[j] == records[j];
    }
    if record.id != last.id && LastRecord(front, record) {
      var i :| 0 <= i < |front| && front[i] == record && forall j :: i < j < |front| ==> front[j].id != record.id;
      assert records[i] == record;
      assert forall j :: i < j < |front| ==> front[j] == records[j];
    }
  }

  lemma LastChangeSnoc(front: seq<StatusChange>, last: StatusChange, change: StatusChange)
    ensures LastChange(front + [last], change) <==> change == last || (change.id != last.id && LastChange(front, change))
  {
    var changes := front + [last];
    assert changes[|front|] == last;
    if change != last && LastChange(changes, change) {
      var i :| 0 <= i < |changes| && changes[i] == change && forall j :: i < j < |changes| ==> changes[j].id != change.id;
      assert front[i] == change;
      assert forall j :: i < j < |front| ==> front[j] == changes[j];
    }
    if change.id != last.id && LastChange(front, change) {
      var i :| 0 <= i < |front| && front[i] == change && forall j :: i < j < |front| ==> front[j].id != change.id;
      assert changes[i] == change;
      assert forall j :: i < j < |front| ==> front[j] == changes[j];
    }
  }

  lemma {:induction false} ChangesAre(changes: seq<StatusChange>, id: string, status: Status)
    ensures id in Changes(changes) && Changes(changes)[id] == status <==> LastChange(changes, StatusChange(id, status))
  {
    if changes != [] {
      var front, last := changes[..|changes| - 1], changes[|changes| - 1];
      ChangesAre(front, id, status);
      LastChangeSnoc(front, last, StatusChange(id, status));
      assert changes == front + [last];
      hide LastChange;
    }
  }

  lemma {:induction false} CatalogIs(records: seq<Record>, id: string, record: Record)
    ensures id in Catalog(records) && Catalog(records)[id] == record <==> record.id == id && LastRecord(records, record)
  {
    if records != [] {
      var front, last := records[..|records| - 1], records[|records| - 1];
      CatalogIs(front, id, record);
      LastRecordSnoc(front, last, record);
      assert records == front + [last];
      hide LastRecord;
    }
  }

  /** What one catalog of the projection holds for an id: the last record, with the status
      of the last change if there is one. */
  ghost predicate Projected(catalog: Catalogs, statuses: map<string, Status>, records: seq<Record>, changes: seq<StatusChange>, id: string) {
    && (forall s :: id in statuses && statuses[id] == s <==> LastChange(changes, StatusChange(id, s)))
    && (id in catalog ==> exists was: Record :: was.id == id && LastRecord(records, was))
    && (forall was: Record :: was.id == id && LastRecord(records, was) ==>
          id in catalog && catalog[id] == if id in statuses then was.(status := statuses[id]) else was)
  }

  lemma CatalogIsProjected(records: seq<Record>, changes: seq<StatusChange>, id: string)
    ensures Projected(Catalog(ApplyChanges(records, Changes(changes))), Changes(changes), records, changes, id)
  {
    CatalogAfterChanges(records, Changes(changes));
    hide Changes, Catalog, ApplyChanges, LastRecord, LastChange;
    forall s
      ensures id in Changes(changes) && Changes(changes)[id] == s <==> LastChange(changes, StatusChange(id, s))
    {
      ChangesAre(changes, id, s);
    }
    forall was: Record | was.id == id
      ensures id in Catalog(records) && Catalog(records)[id] == was <==> LastRecord(records, was)
    {
      CatalogIs(records, id, was);
    }
  }

  lemma ProjectionEnvIs(items: seq<Record>, epics: seq<Record>, itemChanges: seq<StatusChange>, epicChanges: seq<StatusChange>, id: string)
    ensures var env := ProjectionEnv(items, epics, itemChanges, epicChanges);
            && Projected(env.items, env.itemChanges, items, itemChanges, id)
            && Projected(env.epics, env.epicChanges, epics, epicChanges, id)
  {
    hide Projected, Catalog, ApplyChanges, Changes;
    CatalogIsProjected(items, itemChanges, id);
    CatalogIsProjected(epics, epicChanges, id);
  }

  /** buildProspectiveCurationProjection: what the caller gets for a valid model. */
  lemma ProjectionIsValid(items: seq<Record>, epics: seq<Record>, itemChanges: seq<StatusChange>, epicChanges: seq<StatusChange>, m: Model)
    requires Issues(m, Catalog(items), Catalog(epics)) == []
    ensures var env := ProjectionEnv(items, epics, itemChanges, epicChanges);
            (Issues(Overlay(env, m).model, env.items, env.epics) == []
             <==> !exists id :: id in IdSet(m.activeWork) && Misfit(Catalog(items), Changes(itemChanges), id))
  {
    hide Issues, Overlay, Misfit, IdSet;
    CatalogAfterChanges(items, Changes(itemChanges));
    CatalogAfterChanges(epics, Changes(epicChanges));
    OverlayPreservesValidity(ProjectionEnv(items, epics, itemChanges, epicChanges), m, Catalog(items), Catalog(epics));
  }
}
