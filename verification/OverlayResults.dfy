/** What the overlay does to a model: exact contents of every lane, conservation,
    idempotence, and preservation of validity. */
module OverlayResults {
  import opened Text
  import opened RecommendationOverlay

  // ---- Ids of groups and chains ----

  function Elements(ids: seq<string>): set<string> {
    set id | id in ids
  }

  /** The ids that stay in a lane other than activeWork. */
  function Staying(env: Env, ids: set<string>): set<string> {
    set id | id in ids && FateOf(env, id, false) == Keep
  }

  lemma KeptIdsAre(env: Env, ids: seq<string>)
    ensures Elements(KeptIds(env, ids)) == Staying(env, Elements(ids))
  {
    var refs := RefsOf(ids, None);
    WithFateIds(env, refs, false, Keep);
    var kept := WithFate(env, refs, false, Keep);
    forall id
      ensures id in KeptIds(env, ids) <==> id in ids && FateOf(env, id, false) == Keep
    {
      if id in KeptIds(env, ids) {
        var i :| 0 <= i < |kept| && kept[i].itemId == id;
        assert kept[i] in refs;
      }
      if id in ids && FateOf(env, id, false) == Keep {
        var i :| 0 <= i < |ids| && ids[i] == id;
        assert refs[i] in kept;
        var j :| 0 <= j < |kept| && kept[j] == refs[i];
        assert KeptIds(env, ids)[j] == id;
      }
    }
  }

  lemma GroupIdsSnoc(front: seq<Group>, g: Group)
    ensures GroupIds(front + [g]) == GroupIds(front) + Elements(g.itemIds)
  {
  }

  lemma ChainIdsSnoc(front: seq<Chain>, c: Chain)
    ensures ChainIds(front + [c]) == ChainIds(front) + Elements(c.itemIds)
  {
  }

  lemma OverlayGroupIds(env: Env, before: seq<Group>, g: Group)
    ensures GroupIds(before + OverlayGroup(env, g)) == GroupIds(before) + Staying(env, Elements(g.itemIds))
  {
    KeptIdsAre(env, g.itemIds);
    hide KeptIds, KeptEpics, GroupIds, Staying;
    var empty: seq<string> := [];
    assert Elements(empty) == {};
    if OverlayGroup(env, g) == [] {
      assert before + [] == before;
      assert KeptIds(env, g.itemIds) == empty;
    } else {
      GroupIdsSnoc(before, OverlayGroup(env, g)[0]);
      assert OverlayGroup(env, g) == [OverlayGroup(env, g)[0]];
    }
  }

  lemma {:induction false} OverlaidGroupIds(env: Env, groups: seq<Group>)
    ensures GroupIds(OverlayGroups(env, groups)) == Staying(env, GroupIds(groups))
  {
    hide OverlayGroup, FateOf;
    if groups != [] {
      var front, g := groups[..|groups| - 1], groups[|groups| - 1];
      OverlaidGroupIds(env, front);
      OverlayGroupIds(env, OverlayGroups(env, front), g);
      assert groups == front + [g];
      GroupIdsSnoc(front, g);
    }
  }

  lemma OverlayChainIds(env: Env, before: seq<Chain>, c: Chain)
    ensures ChainIds(before + OverlayChain(env, c)) == ChainIds(before) + Staying(env, Elements(c.itemIds))
  {
    KeptIdsAre(env, c.itemIds);
    hide KeptIds, KeptBlockers, ChainIds, Staying;
    var empty: seq<string> := [];
    assert Elements(empty) == {};
    if OverlayChain(env, c) == [] {
      assert before + [] == before;
      assert KeptIds(env, c.itemIds) == empty;
    } else {
      ChainIdsSnoc(before, OverlayChain(env, c)[0]);
      assert OverlayChain(env, c) == [OverlayChain(env, c)[0]];
    }
  }

  lemma {:induction false} OverlaidChainIds(env: Env, chains: seq<Chain>)
    ensures ChainIds(OverlayChains(env, chains)) == Staying(env, ChainIds(chains))
  {
    hide OverlayChain, FateOf;
    if chains != [] {
      var front, c := chains[..|chains| - 1], chains[|chains| - 1];
      OverlaidChainIds(env, front);
      OverlayChainIds(env, OverlayChains(env, front), c);
      assert chains == front + [c];
      ChainIdsSnoc(front, c);
    }
  }

  lemma RefsOfIds(ids: seq<string>, rationale: Option<string>)
    ensures IdSet(RefsOf(ids, rationale)) == Elements(ids)
  {
    var refs := RefsOf(ids, rationale);
    forall id | id in ids
      ensures id in IdSet(refs)
    {
      var i :| 0 <= i < |ids| && ids[i] == id;
      assert refs[i] in refs;
    }
  }

  lemma {:induction false} GroupRefsIds(groups: seq<Group>)
    ensures IdSet(GroupRefs(groups)) == GroupIds(groups)
  {
    if groups != [] {
      var front, g := groups[..|groups| - 1], groups[|groups| - 1];
      GroupRefsIds(front);
      assert groups == front + [g];
      GroupIdsSnoc(front, g);
      RefsOfIds(g.itemIds, g.rationale);
      IdSetAppend(GroupRefs(front), RefsOf(g.itemIds, g.rationale));
    }
  }

  lemma {:induction false} ChainRefsIds(chains: seq<Chain>)
    ensures IdSet(ChainRefs(chains)) == ChainIds(chains)
  {
    if chains != [] {
      var front, c := chains[..|chains| - 1], chains[|chains| - 1];
      ChainRefsIds(front);
      assert chains == front + [c];
      ChainIdsSnoc(front, c);
      RefsOfIds(c.itemIds, c.rationale);
      IdSetAppend(ChainRefs(front), RefsOf(c.itemIds, c.rationale));
    }
  }

  lemma NonActiveRefsIds(m: Model)
    ensures IdSet(NonActiveRefs(m)) == NonActiveIds(m)
  {
    GroupRefsIds(m.groups);
    ChainRefsIds(m.chains);
    IdSetAppend(m.readyCandidates, m.nextSequence);
    IdSetAppend(m.readyCandidates + m.nextSequence, GroupRefs(m.groups));
    IdSetAppend(m.readyCandidates + m.nextSequence + GroupRefs(m.groups), ChainRefs(m.chains));
  }

  // ---- Exact contents of the lanes ----

  function Fated(env: Env, ids: set<string>, inActiveWork: bool, fate: Fate): set<string> {
    set id | id in ids && FateOf(env, id, inActiveWork) == fate
  }

  lemma FilteredLanes(env: Env, m: Model)
    ensures var f := Filtered(env, m);
            && IdSet(f.activeWork) == Fated(env, IdSet(m.activeWork), true, Keep)
            && IdSet(f.readyCandidates) == Staying(env, IdSet(m.readyCandidates))
            && IdSet(f.nextSequence) == Staying(env, IdSet(m.nextSequence))
            && NonActiveIds(f) == Staying(env, NonActiveIds(m))
  {
    WithFateIds(env, m.activeWork, true, Keep);
    WithFateIds(env, m.readyCandidates, false, Keep);
    WithFateIds(env, m.nextSequence, false, Keep);
    OverlaidGroupIds(env, m.groups);
    OverlaidChainIds(env, m.chains);
    hide WithFate, OverlayGroups, OverlayChains, FateOf, IdSet, GroupIds, ChainIds;
  }

  /** Which ids each lane of the overlaid model holds. */
  lemma OverlaidLanes(env: Env, m: Model)
    ensures var o := Overlay(env, m).model;
            && IdSet(o.activeWork) == Fated(env, IdSet(m.activeWork), true, Keep) + Fated(env, NonActiveIds(m), false, ToActive)
            && IdSet(o.readyCandidates) == Staying(env, IdSet(m.readyCandidates))
                 + (Fated(env, IdSet(m.activeWork), true, ToReady) - Staying(env, NonActiveIds(m)))
            && IdSet(o.nextSequence) == Staying(env, IdSet(m.nextSequence))
            && GroupIds(o.groups) == Staying(env, GroupIds(m.groups))
            && ChainIds(o.chains) == Staying(env, ChainIds(m.chains))
  {
    var f := Filtered(env, m);
    FilteredLanes(env, m);
    OverlaidGroupIds(env, m.groups);
    OverlaidChainIds(env, m.chains);
    MovedIds(env, m);
    hide WithFate, OverlayGroups, OverlayChains, FateOf, IdSet, GroupIds, ChainIds, AppendNote, RemovedItems, RemovedEpics, AllMoves, MovedToActive, MovedToReady, Unique, Without, Staying, Fated, NonActiveIds;
    var toActive, toReady := MovedToActive(env, m), MovedToReady(env, m);
    WithoutIds(toActive, IdSet(f.activeWork));
    WithoutIds(toReady, NonActiveIds(f));
    IdSetAppend(f.activeWork, Without(toActive, IdSet(f.activeWork)));
    IdSetAppend(f.readyCandidates, Without(toReady, NonActiveIds(f)));
    UniqueIds(f.activeWork + Without(toActive, IdSet(f.activeWork)));
    UniqueIds(f.readyCandidates + Without(toReady, NonActiveIds(f)));
    UniqueIds(f.nextSequence);
  }

  lemma MovedIds(env: Env, m: Model)
    ensures IdSet(MovedToActive(env, m)) == Fated(env, NonActiveIds(m), false, ToActive)
    ensures IdSet(MovedToReady(env, m)) == Fated(env, IdSet(m.activeWork), true, ToReady)
  {
    NonActiveRefsIds(m);
    WithFateIds(env, NonActiveRefs(m), false, ToActive);
    UniqueIds(WithFate(env, NonActiveRefs(m), false, ToActive));
    WithFateIds(env, m.activeWork, true, ToReady);
    UniqueIds(WithFate(env, m.activeWork, true, ToReady));
  }

  /** Conservation: exactly the draft-closed ids leave the lanes, and none come in. */
  lemma LanesConserved(env: Env, m: Model)
    ensures LaneIds(Overlay(env, m).model) == LaneIds(m) - RemovedIds(env, LaneIds(m))
  {
    OverlaidLanes(env, m);
    hide Overlay, IdSet, GroupIds, ChainIds, ProspectivelyActive;
    var o := Overlay(env, m).model;
    forall id
      ensures id in LaneIds(o) <==> id in LaneIds(m) && !ClosedByDraft(env.itemChanges, id)
    {
    }
  }

  /** Lane exclusivity: outside activeWork nothing is prospectively active. */
  lemma NoActiveOutsideActiveWork(env: Env, m: Model)
    ensures forall id :: id in NonActiveIds(Overlay(env, m).model) ==> !ProspectivelyActive(env, id) && !ClosedByDraft(env.itemChanges, id)
  {
    OverlaidLanes(env, m);
    hide Overlay, IdSet, GroupIds, ChainIds;
  }

  // ---- Idempotence ----

  ghost predicate AllKept(env: Env, refs: seq<ItemRef>, inActiveWork: bool) {
    forall id :: id in IdSet(refs) ==> FateOf(env, id, inActiveWork) == Keep
  }

  lemma {:induction false} KeptStay(env: Env, refs: seq<ItemRef>, lane: Lane, fate: Fate)
    requires AllKept(env, refs, lane == ActiveWork)
    ensures WithFate(env, refs, lane == ActiveWork, Keep) == refs && MovesOf(env, refs, lane) == []
    ensures fate != Keep ==> WithFate(env, refs, lane == ActiveWork, fate) == []
  {
    hide FateOf;
    if refs != [] {
      var front, last := refs[..|refs| - 1], refs[|refs| - 1];
      assert refs == front + [last];
      IdSetAppend(front, [last]);
      assert last.itemId in IdSet(refs);
      assert AllKept(env, front, lane == ActiveWork) && FateOf(env, last.itemId, lane == ActiveWork) == Keep;
      hide IdSet, AllKept;
      KeptStay(env, front, lane, fate);
    }
  }

  lemma {:induction false} KeptBlockersAre(env: Env, ids: seq<string>)
    ensures forall id :: id in KeptBlockers(env, ids) <==> id in ids && !RemovedBlocker(env, id)
    ensures KeptBlockers(env, KeptBlockers(env, ids)) == KeptBlockers(env, ids)
  {
    hide RemovedBlocker;
    if ids != [] {
      var front, last := ids[..|ids| - 1], ids[|ids| - 1];
      KeptBlockersAre(env, front);
      assert ids == front + [last];
      if !RemovedBlocker(env, last) {
        assert (KeptBlockers(env, front) + [last])[..|KeptBlockers(env, front)|] == KeptBlockers(env, front);
      } else {
        assert KeptBlockers(env, ids) == KeptBlockers(env, front);
      }
    }
  }

  lemma {:induction false} KeptEpicsAre(env: Env, ids: seq<string>)
    ensures forall id :: id in KeptEpics(env, ids) <==> id in ids && !RemovedEpic(env, id)
    ensures KeptEpics(env, KeptEpics(env, ids)) == KeptEpics(env, ids)
  {
    hide RemovedEpic;
    if ids != [] {
      var front, last := ids[..|ids| - 1], ids[|ids| - 1];
      KeptEpicsAre(env, front);
      assert ids == front + [last];
      if !RemovedEpic(env, last) {
        assert (KeptEpics(env, front) + [last])[..|KeptEpics(env, front)|] == KeptEpics(env, front);
      } else {
        assert KeptEpics(env, ids) == KeptEpics(env, front);
      }
    }
  }

  lemma KeptIdsFixed(env: Env, ids: seq<string>)
    requires forall id :: id in ids ==> FateOf(env, id, false) == Keep
    ensures KeptIds(env, ids) == ids
  {
    hide FateOf;
    RefsOfIds(ids, None);
    KeptStay(env, RefsOf(ids, None), ReadyCandidates, Keep);
    assert IdsOf(RefsOf(ids, None)) == ids;
  }

  lemma KeptIdsTwice(env: Env, ids: seq<string>)
    ensures KeptIds(env, KeptIds(env, ids)) == KeptIds(env, ids)
  {
    hide FateOf, KeptIds;
    KeptIdsAre(env, ids);
    forall id | id in KeptIds(env, ids)
      ensures FateOf(env, id, false) == Keep
    {
      assert id in Elements(KeptIds(env, ids));
    }
    KeptIdsFixed(env, KeptIds(env, ids));
  }

  lemma GroupFixed(env: Env, g: Group)
    requires OverlayGroup(env, g) != []
    ensures OverlayGroup(env, OverlayGroup(env, g)[0]) == OverlayGroup(env, g)
  {
    hide KeptIds, KeptEpics;
    KeptIdsTwice(env, g.itemIds);
    if g.epicIds.Some? {
      KeptEpicsAre(env, g.epicIds.value);
    }
  }

  lemma ChainFixed(env: Env, c: Chain)
    requires OverlayChain(env, c) != []
    ensures OverlayChain(env, OverlayChain(env, c)[0]) == OverlayChain(env, c)
  {
    hide KeptIds, KeptBlockers;
    KeptIdsTwice(env, c.itemIds);
    KeptBlockersAre(env, c.blockedBy);
  }

  lemma {:induction false} GroupsFixed(env: Env, groups: seq<Group>)
    ensures OverlayGroups(env, OverlayGroups(env, groups)) == OverlayGroups(env, groups)
  {
    hide OverlayGroup;
    if groups != [] {
      var front, g := groups[..|groups| - 1], groups[|groups| - 1];
      var done, now := OverlayGroups(env, front), OverlayGroup(env, g);
      GroupsFixed(env, front);
      if now == [] {
        assert done + now == done;
      } else {
        GroupFixed(env, g);
        GroupIsSingle(env, g);
        assert (done + now)[..|done|] == done && (done + now)[|done|] == now[0];
      }
    }
  }

  lemma GroupIsSingle(env: Env, g: Group)
    ensures |OverlayGroup(env, g)| <= 1
  {
  }

  lemma {:induction false} ChainsFixed(env: Env, chains: seq<Chain>)
    ensures OverlayChains(env, OverlayChains(env, chains)) == OverlayChains(env, chains)
  {
    hide OverlayChain;
    if chains != [] {
      var front, c := chains[..|chains| - 1], chains[|chains| - 1];
      var done, now := OverlayChains(env, front), OverlayChain(env, c);
      ChainsFixed(env, front);
      if now == [] {
        assert done + now == done;
      } else {
        ChainFixed(env, c);
        ChainIsSingle(env, c);
        assert (done + now)[..|done|] == done && (done + now)[|done|] == now[0];
      }
    }
  }

  lemma ChainIsSingle(env: Env, c: Chain)
    ensures |OverlayChain(env, c)| <= 1
  {
  }

  lemma {:induction false} NoGroupMoves(env: Env, groups: seq<Group>)
    requires forall id :: id in GroupIds(groups) ==> FateOf(env, id, false) == Keep
    ensures GroupMoves(env, groups) == []
  {
    hide FateOf;
    if groups != [] {
      var front, g := groups[..|groups| - 1], groups[|groups| - 1];
      assert groups == front + [g];
      GroupIdsSnoc(front, g);
      NoGroupMoves(env, front);
      RefsOfIds(g.itemIds, g.rationale);
      KeptStay(env, RefsOf(g.itemIds, g.rationale), GroupItems(g.ref), Keep);
    }
  }

  lemma {:induction false} NoChainMoves(env: Env, chains: seq<Chain>)
    requires forall id :: id in ChainIds(chains) ==> FateOf(env, id, false) == Keep
    ensures ChainMoves(env, chains) == []
  {
    hide FateOf;
    if chains != [] {
      var front, c := chains[..|chains| - 1], chains[|chains| - 1];
      assert chains == front + [c];
      ChainIdsSnoc(front, c);
      NoChainMoves(env, front);
      RefsOfIds(c.itemIds, c.rationale);
      KeptStay(env, RefsOf(c.itemIds, c.rationale), ChainItems(c.ref), Keep);
    }
  }

  /** A model that the overlay leaves as it is. */
  ghost predicate Stable(env: Env, m: Model) {
    && AllKept(env, m.activeWork, true)
    && (forall id :: id in NonActiveIds(m) ==> FateOf(env, id, false) == Keep)
    && DistinctIds(m.activeWork) && DistinctIds(m.readyCandidates) && DistinctIds(m.nextSequence)
    && OverlayGroups(env, m.groups) == m.groups && OverlayChains(env, m.chains) == m.chains
    && RemovedItems(env, m) == {} && RemovedEpics(env, m) == {}
  }

  lemma StableIsFixed(env: Env, m: Model)
    requires Stable(env, m)
    ensures Overlay(env, m) == Overlaid(m, {}, {}, [])
  {
    NonActiveRefsIds(m);
    hide FateOf, OverlayGroups, OverlayChains, RemovedItems, RemovedEpics, IdSet, WithFate, DistinctIds, GroupIds, ChainIds, NonActiveRefs;
    KeptStay(env, m.activeWork, ActiveWork, ToReady);
    KeptStay(env, m.readyCandidates, ReadyCandidates, Keep);
    KeptStay(env, m.nextSequence, NextSequence, Keep);
    KeptStay(env, NonActiveRefs(m), ReadyCandidates, ToActive);
    NoGroupMoves(env, m.groups);
    NoChainMoves(env, m.chains);
    UniqueOfDistinct(m.activeWork);
    UniqueOfDistinct(m.readyCandidates);
    UniqueOfDistinct(m.nextSequence);
    assert m.activeWork + [] == m.activeWork && m.readyCandidates + [] == m.readyCandidates;
  }

  lemma {:induction false} BlockersKept(env: Env, chains: seq<Chain>)
    ensures forall id :: id in BlockerIds(OverlayChains(env, chains)) ==> !RemovedBlocker(env, id)
  {
    if chains != [] {
      var c := chains[|chains| - 1];
      BlockersKept(env, chains[..|chains| - 1]);
      KeptBlockersAre(env, c.blockedBy);
      hide RemovedBlocker, KeptBlockers, KeptIds;
    }
  }

  lemma {:induction false} EpicsKept(env: Env, groups: seq<Group>)
    ensures forall id :: id in GroupEpics(OverlayGroups(env, groups)) ==> !RemovedEpic(env, id)
  {
    if groups != [] {
      var g := groups[|groups| - 1];
      EpicsKept(env, groups[..|groups| - 1]);
      if g.epicIds.Some? {
        KeptEpicsAre(env, g.epicIds.value);
      }
      hide RemovedEpic, KeptEpics, KeptIds;
    }
  }

  lemma OverlaidIsStable(env: Env, m: Model)
    ensures Stable(env, Overlay(env, m).model)
  {
    OverlaidLanes(env, m);
    BlockersKept(env, m.chains);
    EpicsKept(env, m.groups);
    GroupsFixed(env, m.groups);
    ChainsFixed(env, m.chains);
    hide OverlayGroups, OverlayChains, IdSet, WithFate, DistinctIds, GroupIds, ChainIds, Unique, Without, MovedToActive, MovedToReady, GroupEpics, BlockerIds, AllMoves, AppendNote;
    var f := Filtered(env, m);
    UniqueIsDistinct(f.activeWork + Without(MovedToActive(env, m), IdSet(f.activeWork)));
    UniqueIsDistinct(f.readyCandidates + Without(MovedToReady(env, m), NonActiveIds(f)));
    UniqueIsDistinct(f.nextSequence);
  }

  /** Idempotence: overlaying the result again, with the same draft and catalogs,
      removes and moves nothing and returns the same model. */
  lemma OverlayTwice(env: Env, m: Model)
    ensures Overlay(env, Overlay(env, m).model) == Overlaid(Overlay(env, m).model, {}, {}, [])
  {
    hide Overlay, Stable;
    OverlaidIsStable(env, m);
    StableIsFixed(env, Overlay(env, m).model);
  }

  /** The report: an id that leaves the lanes is reported as removed, a reported id came
      from a lane or a blockedBy list and is in neither afterwards, and exactly the ids
      closed by the draft are reported. */
  lemma RemovalsAreReported(env: Env, m: Model, id: string)
    ensures var o := Overlay(env, m);
            (&& (id in o.removedItems <==> ClosedByDraft(env.itemChanges, id) && id in LaneIds(m) + BlockerIds(m.chains))
             && (id in LaneIds(m) && id !in LaneIds(o.model) ==> id in o.removedItems)
             && (id in o.removedItems ==> id !in LaneIds(o.model) && id !in BlockerIds(o.model.chains)))
  {
    LanesConserved(env, m);
    BlockersKept(env, m.chains);
    hide LaneIds, BlockerIds, OverlayGroups, OverlayChains, WithFate, Unique, Without, AllMoves, AppendNote;
  }
}
