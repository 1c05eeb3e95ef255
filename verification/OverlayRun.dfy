/** overlayRecommendations as the program runs it: the filtering loops fill shared
    sets, maps and a list of moves, and the validator pushes into one issue list. */
module OverlayRun {
  import opened Text
  import opened RecommendationOverlay
  import opened OverlayResults
  import opened OverlayValidity

  /** Entries of a Map in insertion order: a known id is not set again. */
  function AddNew(known: seq<ItemRef>, refs: seq<ItemRef>): seq<ItemRef> {
    if refs == [] then known
    else
      var before, last := AddNew(known, refs[..|refs| - 1]), refs[|refs| - 1];
      if last.itemId in IdSet(before) then before else before + [last]
  }

  lemma {:induction false} AddNewIsUnique(a: seq<ItemRef>, b: seq<ItemRef>)
    ensures AddNew(Unique(a), b) == Unique(a + b)
  {
    hide IdSet;
    if b == [] {
      assert a + b == a;
    } else {
      var front, last := b[..|b| - 1], b[|b| - 1];
      AddNewIsUnique(a, front);
      assert (a + b)[..|a + b| - 1] == a + front && (a + b)[|a + b| - 1] == last;
      UniqueIds(a + front);
      assert Unique(a + front) + [] == Unique(a + front);
    }
  }

  lemma {:induction false} WithFateAppend(env: Env, a: seq<ItemRef>, b: seq<ItemRef>, inActiveWork: bool, fate: Fate)
    ensures WithFate(env, a + b, inActiveWork, fate) == WithFate(env, a, inActiveWork, fate) + WithFate(env, b, inActiveWork, fate)
  {
    hide FateOf;
    if b == [] {
      assert a + b == a;
    } else {
      var front, last := b[..|b| - 1], b[|b| - 1];
      assert (a + b)[..|a + b| - 1] == a + front && (a + b)[|a + b| - 1] == last;
      WithFateAppend(env, a, front, inActiveWork, fate);
    }
  }

  lemma {:induction false} AddNewAppend(known: seq<ItemRef>, a: seq<ItemRef>, b: seq<ItemRef>)
    ensures AddNew(AddNew(known, a), b) == AddNew(known, a + b)
  {
    hide IdSet;
    if b == [] {
      assert a + b == a;
    } else {
      var front, last := b[..|b| - 1], b[|b| - 1];
      assert (a + b)[..|a + b| - 1] == a + front && (a + b)[|a + b| - 1] == last;
      AddNewAppend(known, a, front);
    }
  }

  lemma AddOne(known: seq<ItemRef>, r: ItemRef)
    ensures AddNew(known, [r]) == if r.itemId in IdSet(known) then known else known + [r]
  {
    hide IdSet;
    assert [r][..0] == [];
    assert AddNew(known, []) == known;
  }

  // ---- The shared state after a list of references ----

  datatype Trail = Trail(removedItems: set<string>, moves: seq<Move>, toActive: seq<ItemRef>, toReady: seq<ItemRef>)

  function TrailAfter(env: Env, t: Trail, refs: seq<ItemRef>, lane: Lane): Trail {
    Trail(t.removedItems + RemovedIds(env, IdSet(refs)), t.moves + MovesOf(env, refs, lane),
      AddNew(t.toActive, WithFate(env, refs, lane == ActiveWork, ToActive)),
      AddNew(t.toReady, WithFate(env, refs, lane == ActiveWork, ToReady)))
  }

  lemma TrailStart(env: Env, t: Trail, refs: seq<ItemRef>, lane: Lane)
    requires refs == []
    ensures TrailAfter(env, t, refs, lane) == t
  {
    assert IdSet(refs) == {} && RemovedIds(env, {}) == {};
    assert t.moves + [] == t.moves;
  }

  /** One pass of the filtering loops. */
  lemma TrailStep(env: Env, t: Trail, done: seq<ItemRef>, r: ItemRef, lane: Lane)
    ensures var before, fate := TrailAfter(env, t, done, lane), FateOf(env, r.itemId, lane == ActiveWork);
            TrailAfter(env, t, done + [r], lane)
            == Trail(if fate == Remove then before.removedItems + {r.itemId} else before.removedItems,
                 before.moves + (if fate == ToActive then [Move(r.itemId, lane, ActiveWork)]
                                 else if fate == ToReady then [Move(r.itemId, lane, ReadyCandidates)] else []),
                 if fate == ToActive then AddNew(before.toActive, [r]) else before.toActive,
                 if fate == ToReady then AddNew(before.toReady, [r]) else before.toReady)
    ensures WithFate(env, done + [r], lane == ActiveWork, Keep)
         == WithFate(env, done, lane == ActiveWork, Keep) + (if FateOf(env, r.itemId, lane == ActiveWork) == Keep then [r] else [])
  {
    RemovedSnoc(env, done, r, lane == ActiveWork);
    hide FateOf, RemovedIds, AddNew, IdSet;
    assert (done + [r])[..|done|] == done;
    var active, ready := WithFate(env, done, lane == ActiveWork, ToActive), WithFate(env, done, lane == ActiveWork, ToReady);
    assert active + [] == active && ready + [] == ready;
    AddNewAppend(t.toActive, active, [r]);
    AddNewAppend(t.toReady, ready, [r]);
  }

  lemma RemovedSnoc(env: Env, done: seq<ItemRef>, r: ItemRef, inActiveWork: bool)
    ensures RemovedIds(env, IdSet(done + [r]))
         == RemovedIds(env, IdSet(done)) + (if FateOf(env, r.itemId, inActiveWork) == Remove then {r.itemId} else {})
  {
    IdSetAppend(done, [r]);
    assert IdSet([r]) == {r.itemId};
  }

  class Overlayer {
    const env: Env
    var removedItems: set<string>
    var removedEpics: set<string>
    var repositioned: seq<Move>
    var movedToActive: seq<ItemRef>
    var movedToReady: seq<ItemRef>

    constructor (env: Env)
      ensures this.env == env && State() == Trail({}, [], [], []) && removedEpics == {}
    {
      this.env := env;
      removedItems, removedEpics, repositioned, movedToActive, movedToReady := {}, {}, [], [], [];
    }

    ghost function State(): Trail
      reads this
    {
      Trail(removedItems, repositioned, movedToActive, movedToReady)
    }

    /** The body of the filtering loops, for one reference. */
    method Place(r: ItemRef, lane: Lane, ghost start: Trail, ghost done: seq<ItemRef>) returns (keep: bool)
      requires State() == TrailAfter(env, start, done, lane)
      modifies this
      ensures State() == TrailAfter(env, start, done + [r], lane) && removedEpics == old(removedEpics)
      ensures keep <==> FateOf(env, r.itemId, lane == ActiveWork) == Keep
    {
      hide TrailAfter, IdSet, ClosedByDraft, ProspectivelyActive;
      TrailStep(env, start, done, r, lane);
      AddOne(movedToActive, r);
      AddOne(movedToReady, r);
      assert repositioned + [] == repositioned;
      keep := false;
      if ClosedByDraft(env.itemChanges, r.itemId) {
        removedItems := removedItems + {r.itemId};
      } else if ProspectivelyActive(env, r.itemId) && lane != ActiveWork {
        if r.itemId !in IdSet(movedToActive) {
          movedToActive := movedToActive + [r];
        }
        repositioned := repositioned + [Move(r.itemId, lane, ActiveWork)];
      } else if r.itemId in env.itemChanges && env.itemChanges[r.itemId] == Planned && lane == ActiveWork {
        if r.itemId !in IdSet(movedToReady) {
          movedToReady := movedToReady + [r];
        }
        repositioned := repositioned + [Move(r.itemId, ActiveWork, ReadyCandidates)];
      } else {
        keep := true;
      }
    }

    /** filterItemRefs. */
    method FilterItemRefs(refs: seq<ItemRef>, lane: Lane) returns (result: seq<ItemRef>)
      modifies this
      ensures State() == TrailAfter(env, old(State()), refs, lane) && removedEpics == old(removedEpics)
      ensures result == WithFate(env, refs, lane == ActiveWork, Keep)
    {
      hide TrailAfter, FateOf;
      ghost var start := State();
      result := [];
      TrailStart(env, start, refs[..0], lane);
      for i := 0 to |refs|
        invariant State() == TrailAfter(env, start, refs[..i], lane) && removedEpics == old(removedEpics)
        invariant result == WithFate(env, refs[..i], lane == ActiveWork, Keep)
      {
        assert refs[..i + 1] == refs[..i] + [refs[i]];
        TrailStep(env, start, refs[..i], refs[i], lane);
        var keep := Place(refs[i], lane, start, refs[..i]);
        if keep {
          result := result + [refs[i]];
        }
      }
      assert refs[..|refs|] == refs;
    }

    /** The item loop that overlayGroup and overlayBlockedChain share. */
    method FilterItemIds(ids: seq<string>, rationale: Option<string>, lane: Lane) returns (kept: seq<string>)
      requires lane != ActiveWork
      modifies this
      ensures State() == TrailAfter(env, old(State()), RefsOf(ids, rationale), lane) && removedEpics == old(removedEpics)
      ensures kept == KeptIds(env, ids)
    {
      hide TrailAfter, FateOf, KeptIds;
      ghost var start := State();
      kept := [];
      TrailStart(env, start, RefsOf(ids[..0], rationale), lane);
      KeptNothing(env, ids[..0]);
      for i := 0 to |ids|
        invariant State() == TrailAfter(env, start, RefsOf(ids[..i], rationale), lane) && removedEpics == old(removedEpics)
        invariant kept == KeptIds(env, ids[..i])
      {
        assert ids[..i + 1] == ids[..i] + [ids[i]];
        var r := ItemRef(ids[i], None, rationale, None);
        assert RefsOf(ids[..i + 1], rationale) == RefsOf(ids[..i], rationale) + [r];
        KeptIdsSnoc(env, ids[..i], ids[i]);
        var keep := Place(r, lane, start, RefsOf(ids[..i], rationale));
        if keep {
          kept := kept + [ids[i]];
        }
      }
      assert ids[..|ids|] == ids;
    }

    /** overlayGroup. */
    method PlaceGroup(g: Group) returns (result: seq<Group>)
      modifies this
      ensures result == OverlayGroup(env, g)
      ensures State() == TrailAfter(env, old(State()), RefsOf(g.itemIds, g.rationale), GroupItems(g.ref))
      ensures removedEpics == old(removedEpics) + RemovedAmong(env, if g.epicIds.Some? then g.epicIds.value else [])
    {
      hide TrailAfter, KeptIds, RemovedEpic;
      var itemIds := FilterItemIds(g.itemIds, g.rationale, GroupItems(g.ref));
      var epicIds := g.epicIds;
      if g.epicIds.Some? {
        var kept: seq<string> := [];
        var ids := g.epicIds.value;
        ghost var before := removedEpics;
        for i := 0 to |ids|
          invariant kept == KeptEpics(env, ids[..i]) && removedEpics == before + RemovedAmong(env, ids[..i])
          invariant State() == TrailAfter(env, old(State()), RefsOf(g.itemIds, g.rationale), GroupItems(g.ref))
        {
          assert ids[..i + 1] == ids[..i] + [ids[i]];
          assert kept + [] == kept;
          if RemovedEpic(env, ids[i]) {
            removedEpics := removedEpics + {ids[i]};
          } else {
            kept := kept + [ids[i]];
          }
        }
        assert ids[..|ids|] == ids;
        epicIds := Some(kept);
      }
      if |itemIds| == 0 && |g.itemIds| > 0 {
        return [];
      }
      result := [g.(itemIds := itemIds, epicIds := epicIds)];
    }

    /** overlayBlockedChain. */
    method PlaceChain(c: Chain) returns (result: seq<Chain>)
      modifies this
      ensures result == OverlayChain(env, c) && removedEpics == old(removedEpics)
      ensures State() == WithBlockers(env, TrailAfter(env, old(State()), RefsOf(c.itemIds, c.rationale), ChainItems(c.ref)), c.blockedBy)
    {
      hide TrailAfter, KeptIds, ClosedByDraft;
      var itemIds := FilterItemIds(c.itemIds, c.rationale, ChainItems(c.ref));
      ghost var middle := State();
      var blockedBy: seq<string> := [];
      WithoutBlockers(env, middle);
      for i := 0 to |c.blockedBy|
        invariant blockedBy == KeptBlockers(env, c.blockedBy[..i])
        invariant State() == WithBlockers(env, middle, c.blockedBy[..i]) && removedEpics == old(removedEpics)
      {
        var id := c.blockedBy[i];
        assert c.blockedBy[..i + 1] == c.blockedBy[..i] + [id];
        assert blockedBy + [] == blockedBy;
        if ClosedByDraft(env.itemChanges, id) {
          removedItems := removedItems + {id};
        }
        if !RemovedBlocker(env, id) {
          blockedBy := blockedBy + [id];
        }
      }
      assert c.blockedBy[..|c.blockedBy|] == c.blockedBy;
      result := if |itemIds| == 0 then [] else [c.(itemIds := itemIds, blockedBy := blockedBy)];
    }

    /** The groups loop. */
    method PlaceGroups(groups: seq<Group>) returns (result: seq<Group>)
      modifies this
      ensures result == OverlayGroups(env, groups) && State() == AfterGroups(env, old(State()), groups)
      ensures removedEpics == old(removedEpics) + EpicsRemovedFrom(env, groups)
    {
      hide TrailAfter, OverlayGroup, AfterGroups, EpicsRemovedFrom;
      result := [];
      NoGroups(env, State());
      for i := 0 to |groups|
        invariant result == OverlayGroups(env, groups[..i]) && State() == AfterGroups(env, old(State()), groups[..i])
        invariant removedEpics == old(removedEpics) + EpicsRemovedFrom(env, groups[..i])
      {
        assert groups[..i + 1] == groups[..i] + [groups[i]];
        AfterGroupsSnoc(env, old(State()), groups[..i], groups[i]);
        var placed := PlaceGroup(groups[i]);
        result := result + placed;
      }
      assert groups[..|groups|] == groups;
    }

    /** The chains loop. */
    method PlaceChains(chains: seq<Chain>) returns (result: seq<Chain>)
      modifies this
      ensures result == OverlayChains(env, chains) && State() == AfterChains(env, old(State()), chains)
      ensures removedEpics == old(removedEpics)
    {
      hide TrailAfter, OverlayChain, AfterChains, WithBlockers;
      result := [];
      NoChains(env, State());
      for i := 0 to |chains|
        invariant result == OverlayChains(env, chains[..i]) && State() == AfterChains(env, old(State()), chains[..i])
        invariant removedEpics == old(removedEpics)
      {
        assert chains[..i + 1] == chains[..i] + [chains[i]];
        AfterChainsSnoc(env, old(State()), chains[..i], chains[i]);
        var placed := PlaceChain(chains[i]);
        result := result + placed;
      }
      assert chains[..|chains|] == chains;
    }

    /** overlayRecommendations. */
    method OverlayRecommendations(m: Model) returns (o: Overlaid)
      requires State() == Trail({}, [], [], []) && removedEpics == {}
      modifies this
      ensures o == Overlay(env, m)
    {
      hide TrailAfter, AfterGroups, AfterChains, Overlay, Filtered, IdSet, Unique, Without, EpicsRemovedFrom, OverlayGroups, OverlayChains, WithFate, NonActiveIds, AppendNote;
      var activeWork := FilterItemRefs(m.activeWork, ActiveWork);
      var readyCandidates := FilterItemRefs(m.readyCandidates, ReadyCandidates);
      var nextSequence := FilterItemRefs(m.nextSequence, NextSequence);
      var groups := PlaceGroups(m.groups);
      var chains := PlaceChains(m.chains);
      FinalTrail(env, m);
      FilteredIs(env, m, activeWork, readyCandidates, nextSequence, groups, chains);
      activeWork := PushMissing(activeWork, movedToActive, IdSet(activeWork));
      readyCandidates := PushMissing(readyCandidates, movedToReady, NonActiveIds(Model([], readyCandidates, nextSequence, groups, chains, [])));
      activeWork := UniqueItemRefs(activeWork);
      readyCandidates := UniqueItemRefs(readyCandidates);
      nextSequence := UniqueItemRefs(nextSequence);
      o := Overlaid(Model(activeWork, readyCandidates, nextSequence, groups, chains, AppendNote(m.notes, removedItems, removedEpics, repositioned)),
        removedItems, removedEpics, repositioned);
      OverlaidIs(env, m, Filtered(env, m), o);
    }
  }

  /** Append the moved references whose id the lanes do not have yet. */
  method PushMissing(refs: seq<ItemRef>, moved: seq<ItemRef>, known: set<string>) returns (result: seq<ItemRef>)
    ensures result == refs + Without(moved, known)
  {
    result := refs;
    assert refs + [] == refs;
    for i := 0 to |moved|
      invariant result == refs + Without(moved[..i], known)
    {
      assert moved[..i + 1] == moved[..i] + [moved[i]];
      if moved[i].itemId !in known {
        result := result + [moved[i]];
      }
    }
    assert moved[..|moved|] == moved;
  }

  /** uniqueItemRefs. */
  method UniqueItemRefs(refs: seq<ItemRef>) returns (result: seq<ItemRef>)
    ensures result == Unique(refs)
  {
    hide IdSet;
    var seen: set<string> := {};
    result := [];
    NoIds(refs[..0]);
    for i := 0 to |refs|
      invariant result == Unique(refs[..i]) && seen == IdSet(refs[..i])
    {
      assert refs[..i + 1] == refs[..i] + [refs[i]];
      IdSetAppend(refs[..i], [refs[i]]);
      OneId(refs[i]);
      assert result + [] == result;
      if refs[i].itemId !in seen {
        seen := seen + {refs[i].itemId};
        result := result + [refs[i]];
      }
    }
    assert refs[..|refs|] == refs;
  }

  lemma NoIds(refs: seq<ItemRef>)
    requires refs == []
    ensures IdSet(refs) == {}
  {
  }

  lemma OneId(r: ItemRef)
    ensures IdSet([r]) == {r.itemId}
  {
  }

  lemma FilteredIs(env: Env, m: Model, a: seq<ItemRef>, r: seq<ItemRef>, n: seq<ItemRef>, g: seq<Group>, c: seq<Chain>)
    requires a == WithFate(env, m.activeWork, true, Keep) && r == WithFate(env, m.readyCandidates, false, Keep)
    requires n == WithFate(env, m.nextSequence, false, Keep) && g == OverlayGroups(env, m.groups) && c == OverlayChains(env, m.chains)
    ensures Filtered(env, m) == Model(a, r, n, g, c, m.notes)
    ensures NonActiveIds(Filtered(env, m)) == NonActiveIds(Model([], r, n, g, c, []))
  {
  }

  lemma OverlaidIs(env: Env, m: Model, f: Model, o: Overlaid)
    requires f == Filtered(env, m)
    requires o.removedItems == RemovedItems(env, m) && o.removedEpics == RemovedEpics(env, m) && o.moves == AllMoves(env, m)
    requires o.model == Model(Unique(f.activeWork + Without(MovedToActive(env, m), IdSet(f.activeWork))),
                          Unique(f.readyCandidates + Without(MovedToReady(env, m), NonActiveIds(f))),
                          Unique(f.nextSequence), f.groups, f.chains, AppendNote(m.notes, o.removedItems, o.removedEpics, o.moves))
    ensures o == Overlay(env, m)
  {
    hide Filtered, RemovedItems, RemovedEpics, AllMoves, AppendNote;
  }

  /** The shared state once every lane has been filtered. */
  lemma FinalTrail(env: Env, m: Model)
    ensures var t1 := TrailAfter(env, Trail({}, [], [], []), m.activeWork, ActiveWork);
            var t3 := TrailAfter(env, TrailAfter(env, t1, m.readyCandidates, ReadyCandidates), m.nextSequence, NextSequence);
            AfterChains(env, AfterGroups(env, t3, m.groups), m.chains)
            == Trail(RemovedItems(env, m), AllMoves(env, m), MovedToActive(env, m), MovedToReady(env, m))
    ensures EpicsRemovedFrom(env, m.groups) == RemovedEpics(env, m)
  {
    hide FateOf, IdSet, GroupIds, ChainIds, BlockerIds, MovesOf, GroupMoves, ChainMoves, WithFate, GroupEpics, GroupRefs, ChainRefs, AddNew, Unique, ClosedByDraft;
    OneWay(env, m.activeWork);
    OneWay(env, m.readyCandidates);
    OneWay(env, m.nextSequence);
    FinalToActive(env, m);
    var none: seq<Move> := [];
    assert none + MovesOf(env, m.activeWork, ActiveWork) == MovesOf(env, m.activeWork, ActiveWork);
    FinalRemoved(env, m);
    FinalToReady(env, m);
  }

  lemma FinalRemoved(env: Env, m: Model)
    ensures {} + RemovedIds(env, IdSet(m.activeWork)) + RemovedIds(env, IdSet(m.readyCandidates)) + RemovedIds(env, IdSet(m.nextSequence))
            + RemovedIds(env, GroupIds(m.groups)) + RemovedIds(env, ChainIds(m.chains) + BlockerIds(m.chains))
         == RemovedItems(env, m)
  {
    hide ClosedByDraft, IdSet, GroupIds, ChainIds, BlockerIds;
  }

  lemma FinalToReady(env: Env, m: Model)
    ensures AddNew(AddNew(AddNew([], WithFate(env, m.activeWork, true, ToReady)), []), []) == MovedToReady(env, m)
  {
    hide WithFate;
    var ready := WithFate(env, m.activeWork, true, ToReady);
    AddNewIsUnique([], ready);
    assert [] + ready == ready;
    AddNothing(AddNew([], ready));
  }

  lemma FinalToActive(env: Env, m: Model)
    ensures AddNew(AddNew(AddNew(AddNew(AddNew([], []),
              WithFate(env, m.readyCandidates, false, ToActive)), WithFate(env, m.nextSequence, false, ToActive)),
              WithFate(env, GroupRefs(m.groups), false, ToActive)), WithFate(env, ChainRefs(m.chains), false, ToActive))
         == MovedToActive(env, m)
  {
    var r, n, g, c := m.readyCandidates, m.nextSequence, GroupRefs(m.groups), ChainRefs(m.chains);
    WithFateAppend(env, r, n, false, ToActive);
    WithFateAppend(env, r + n, g, false, ToActive);
    WithFateAppend(env, r + n + g, c, false, ToActive);
    hide WithFate;
    var wr, wn := WithFate(env, r, false, ToActive), WithFate(env, n, false, ToActive);
    var wg, wc := WithFate(env, g, false, ToActive), WithFate(env, c, false, ToActive);
    AddNothing([]);
    AddNewAppend([], wr, wn);
    AddNewAppend([], wr + wn, wg);
    AddNewAppend([], wr + wn + wg, wc);
    AddNewIsUnique([], wr + wn + wg + wc);
    assert [] + (wr + wn + wg + wc) == wr + wn + wg + wc;
  }

  function RemovedAmong(env: Env, ids: seq<string>): set<string> {
    set id | id in ids && RemovedEpic(env, id)
  }

  function EpicsRemovedFrom(env: Env, groups: seq<Group>): set<string> {
    set id | id in GroupEpics(groups) && RemovedEpic(env, id)
  }

  function WithBlockers(env: Env, t: Trail, ids: seq<string>): Trail {
    t.(removedItems := t.removedItems + RemovedIds(env, Elements(ids)))
  }

  lemma WithoutBlockers(env: Env, t: Trail)
    ensures WithBlockers(env, t, []) == t
  {
    var none: seq<string> := [];
    assert Elements(none) == {};
  }

  function AfterGroups(env: Env, t: Trail, groups: seq<Group>): Trail {
    Trail(t.removedItems + RemovedIds(env, GroupIds(groups)), t.moves + GroupMoves(env, groups),
      AddNew(t.toActive, WithFate(env, GroupRefs(groups), false, ToActive)), t.toReady)
  }

  function AfterChains(env: Env, t: Trail, chains: seq<Chain>): Trail {
    Trail(t.removedItems + RemovedIds(env, ChainIds(chains) + BlockerIds(chains)), t.moves + ChainMoves(env, chains),
      AddNew(t.toActive, WithFate(env, ChainRefs(chains), false, ToActive)), t.toReady)
  }

  /** Only activeWork references are moved to readyCandidates, and none of them to activeWork. */
  lemma {:induction false} OneWay(env: Env, refs: seq<ItemRef>)
    ensures WithFate(env, refs, false, ToReady) == [] && WithFate(env, refs, true, ToActive) == []
  {
    if refs != [] {
      OneWay(env, refs[..|refs| - 1]);
    }
  }

  lemma NoGroups(env: Env, t: Trail)
    ensures AfterGroups(env, t, []) == t && EpicsRemovedFrom(env, []) == {}
  {
    var none: seq<Group> := [];
    assert GroupIds(none) == {} && t.moves + [] == t.moves;
  }

  lemma NoChains(env: Env, t: Trail)
    ensures AfterChains(env, t, []) == t
  {
    var none: seq<Chain> := [];
    assert ChainIds(none) == {} && BlockerIds(none) == {} && t.moves + [] == t.moves;
  }

  lemma AfterGroupsSnoc(env: Env, t: Trail, front: seq<Group>, g: Group)
    ensures AfterGroups(env, t, front + [g]) == TrailAfter(env, AfterGroups(env, t, front), RefsOf(g.itemIds, g.rationale), GroupItems(g.ref))
    ensures EpicsRemovedFrom(env, front + [g]) == EpicsRemovedFrom(env, front) + RemovedAmong(env, if g.epicIds.Some? then g.epicIds.value else [])
  {
    hide FateOf, RemovedEpic, AddNew, MovesOf;
    var refs := RefsOf(g.itemIds, g.rationale);
    assert (front + [g])[..|front|] == front;
    GroupIdsSnoc(front, g);
    GroupEpicsSnoc(front, g);
    RefsOfIds(g.itemIds, g.rationale);
    WithFateAppend(env, GroupRefs(front), refs, false, ToActive);
    AddNewAppend(t.toActive, WithFate(env, GroupRefs(front), false, ToActive), WithFate(env, refs, false, ToActive));
    OneWay(env, refs);
    AddNothing(t.toReady);
    assert t.moves + (GroupMoves(env, front) + MovesOf(env, refs, GroupItems(g.ref))) == t.moves + GroupMoves(env, front) + MovesOf(env, refs, GroupItems(g.ref));
    hide GroupIds, GroupEpics, WithFate;
  }

  lemma AddNothing(known: seq<ItemRef>)
    ensures AddNew(known, []) == known
  {
  }

  lemma AfterChainsSnoc(env: Env, t: Trail, front: seq<Chain>, c: Chain)
    ensures AfterChains(env, t, front + [c])
         == WithBlockers(env, TrailAfter(env, AfterChains(env, t, front), RefsOf(c.itemIds, c.rationale), ChainItems(c.ref)), c.blockedBy)
  {
    hide FateOf, AddNew, MovesOf, RemovedIds, WithFate, ChainIds, BlockerIds, IdSet, RefsOf, Elements;
    var refs := RefsOf(c.itemIds, c.rationale);
    assert (front + [c])[..|front|] == front;
    ChainIdsSnoc(front, c);
    BlockerIdsSnoc(front, c);
    RefsOfIds(c.itemIds, c.rationale);
    ChainRemovals(env, ChainIds(front), BlockerIds(front), c);
    WithFateAppend(env, ChainRefs(front), refs, false, ToActive);
    AddNewAppend(t.toActive, WithFate(env, ChainRefs(front), false, ToActive), WithFate(env, refs, false, ToActive));
    OneWay(env, refs);
    AddNothing(t.toReady);
    assert t.moves + (ChainMoves(env, front) + MovesOf(env, refs, ChainItems(c.ref))) == t.moves + ChainMoves(env, front) + MovesOf(env, refs, ChainItems(c.ref));
  }

  lemma ChainRemovals(env: Env, ids: set<string>, blockers: set<string>, c: Chain)
    ensures RemovedIds(env, (ids + Elements(c.itemIds)) + (blockers + Elements(c.blockedBy)))
         == RemovedIds(env, ids + blockers) + RemovedIds(env, Elements(c.itemIds)) + RemovedIds(env, Elements(c.blockedBy))
  {
    hide Elements;
  }

  lemma KeptNothing(env: Env, ids: seq<string>)
    requires ids == []
    ensures KeptIds(env, ids) == []
  {
  }

  lemma KeptIdsSnoc(env: Env, ids: seq<string>, id: string)
    ensures KeptIds(env, ids + [id]) == KeptIds(env, ids) + (if FateOf(env, id, false) == Keep then [id] else [])
  {
    hide FateOf;
    assert RefsOf(ids + [id], None)[..|ids|] == RefsOf(ids, None);
  }

  // ---- The validator's loops ----

  lemma LaneRefIssuesSnoc(before: seq<Issue>, refs: seq<ItemRef>, i: nat, lane: Lane, catalog: Catalogs)
    requires i < |refs|
    ensures before + LaneRefIssues(refs[..i + 1], lane, catalog)
         == before + LaneRefIssues(refs[..i], lane, catalog) + OpenIssues(At(lane, i), refs[i].itemId, catalog)
            + LaneIssues(At(lane, i), refs[i].itemId, catalog, lane == ActiveWork)
  {
    hide OpenIssues, LaneIssues;
    assert refs[..i + 1][..i] == refs[..i];
  }

  lemma ItemIssuesSnoc(before: seq<Issue>, ids: seq<string>, i: nat, lane: Lane, catalog: Catalogs)
    requires i < |ids|
    ensures before + ItemIssues(ids[..i + 1], lane, catalog)
         == before + ItemIssues(ids[..i], lane, catalog) + OpenIssues(Within(lane), ids[i], catalog)
            + LaneIssues(Within(lane), ids[i], catalog, false)
  {
    hide OpenIssues, LaneIssues;
    assert ids[..i + 1][..i] == ids[..i];
  }

  lemma ReferenceIssuesSnoc(before: seq<Issue>, ids: seq<string>, i: nat, where: Where, catalog: Catalogs)
    requires i < |ids|
    ensures before + ReferenceIssues(ids[..i + 1], where, catalog)
         == before + ReferenceIssues(ids[..i], where, catalog) + OpenIssues(where, ids[i], catalog)
  {
    hide OpenIssues;
    assert ids[..i + 1][..i] == ids[..i];
  }

  lemma GroupsIssuesSnoc(before: seq<Issue>, groups: seq<Group>, i: nat, items: Catalogs, epics: Catalogs)
    requires i < |groups|
    ensures var g := groups[i];
            before + GroupsIssues(groups[..i + 1], items, epics)
            == before + GroupsIssues(groups[..i], items, epics)
               + (if g.itemIds == [] then [Issue(Within(GroupItems(g.ref)), "", EmptyGroup)] else [])
               + ItemIssues(g.itemIds, GroupItems(g.ref), items)
               + (if g.epicIds.Some? then ReferenceIssues(g.epicIds.value, EpicsOf(g.ref), epics) else [])
  {
    hide ItemIssues, ReferenceIssues;
    assert groups[..i + 1][..i] == groups[..i];
  }

  lemma ChainsIssuesSnoc(before: seq<Issue>, chains: seq<Chain>, i: nat, items: Catalogs)
    requires i < |chains|
    ensures var c := chains[i];
            before + ChainsIssues(chains[..i + 1], items)
            == before + ChainsIssues(chains[..i], items) + ItemIssues(c.itemIds, ChainItems(c.ref), items)
               + ReferenceIssues(c.blockedBy, BlockersOf(c.ref), items)
  {
    hide ItemIssues, ReferenceIssues;
    assert chains[..i + 1][..i] == chains[..i];
  }

  lemma PlusNothing(issues: seq<Issue>)
    ensures issues + [] == issues
  {
  }

  method CollectLane(refs: seq<ItemRef>, lane: Lane, catalog: Catalogs, before: seq<Issue>) returns (issues: seq<Issue>)
    ensures issues == before + LaneRefIssues(refs, lane, catalog)
  {
    hide OpenIssues, LaneIssues, RefIssues;
    issues := before;
    PlusNothing(before);
    for i := 0 to |refs|
      invariant issues == before + LaneRefIssues(refs[..i], lane, catalog)
    {
      LaneRefIssuesSnoc(before, refs, i, lane, catalog);
      issues := issues + OpenIssues(At(lane, i), refs[i].itemId, catalog);
      issues := issues + LaneIssues(At(lane, i), refs[i].itemId, catalog, lane == ActiveWork);
    }
    assert refs[..|refs|] == refs;
  }

  method CollectItems(ids: seq<string>, lane: Lane, catalog: Catalogs, before: seq<Issue>) returns (issues: seq<Issue>)
    ensures issues == before + ItemIssues(ids, lane, catalog)
  {
    hide OpenIssues, LaneIssues, RefIssues;
    issues := before;
    PlusNothing(before);
    for i := 0 to |ids|
      invariant issues == before + ItemIssues(ids[..i], lane, catalog)
    {
      ItemIssuesSnoc(before, ids, i, lane, catalog);
      issues := issues + OpenIssues(Within(lane), ids[i], catalog);
      issues := issues + LaneIssues(Within(lane), ids[i], catalog, false);
    }
    assert ids[..|ids|] == ids;
  }

  method CollectReferences(ids: seq<string>, where: Where, catalog: Catalogs, before: seq<Issue>) returns (issues: seq<Issue>)
    ensures issues == before + ReferenceIssues(ids, where, catalog)
  {
    hide OpenIssues;
    issues := before;
    PlusNothing(before);
    for i := 0 to |ids|
      invariant issues == before + ReferenceIssues(ids[..i], where, catalog)
    {
      ReferenceIssuesSnoc(before, ids, i, where, catalog);
      issues := issues + OpenIssues(where, ids[i], catalog);
    }
    assert ids[..|ids|] == ids;
  }

  method CollectGroups(groups: seq<Group>, items: Catalogs, epics: Catalogs, before: seq<Issue>) returns (issues: seq<Issue>)
    ensures issues == before + GroupsIssues(groups, items, epics)
  {
    hide ItemIssues, ReferenceIssues, GroupIssues;
    issues := before;
    PlusNothing(before);
    for i := 0 to |groups|
      invariant issues == before + GroupsIssues(groups[..i], items, epics)
    {
      var g := groups[i];
      GroupsIssuesSnoc(before, groups, i, items, epics);
      PlusNothing(issues);
      if |g.itemIds| == 0 {
        issues := issues + [Issue(Within(GroupItems(g.ref)), "", EmptyGroup)];
      }
      issues := CollectItems(g.itemIds, GroupItems(g.ref), items, issues);
      PlusNothing(issues);
      if g.epicIds.Some? {
        issues := CollectReferences(g.epicIds.value, EpicsOf(g.ref), epics, issues);
      }
    }
    assert groups[..|groups|] == groups;
  }

  method CollectChains(chains: seq<Chain>, items: Catalogs, before: seq<Issue>) returns (issues: seq<Issue>)
    ensures issues == before + ChainsIssues(chains, items)
  {
    hide ItemIssues, ReferenceIssues, ChainIssues;
    issues := before;
    PlusNothing(before);
    for i := 0 to |chains|
      invariant issues == before + ChainsIssues(chains[..i], items)
    {
      var c := chains[i];
      ChainsIssuesSnoc(before, chains, i, items);
      issues := CollectItems(c.itemIds, ChainItems(c.ref), items, issues);
      issues := CollectReferences(c.blockedBy, BlockersOf(c.ref), items, issues);
    }
    assert chains[..|chains|] == chains;
  }

  /** collectProspectiveRecommendationValidationIssues. */
  method CollectIssues(m: Model, items: seq<Record>, epics: seq<Record>) returns (issues: seq<Issue>)
    ensures issues == Issues(m, Catalog(items), Catalog(epics))
  {
    hide LaneRefIssues, GroupsIssues, ChainsIssues, Catalog;
    var itemCatalog, epicCatalog := Catalog(items), Catalog(epics);
    issues := CollectLane(m.activeWork, ActiveWork, itemCatalog, []);
    assert [] + LaneRefIssues(m.activeWork, ActiveWork, itemCatalog) == LaneRefIssues(m.activeWork, ActiveWork, itemCatalog);
    issues := CollectLane(m.readyCandidates, ReadyCandidates, itemCatalog, issues);
    issues := CollectLane(m.nextSequence, NextSequence, itemCatalog, issues);
    issues := CollectGroups(m.groups, itemCatalog, epicCatalog, issues);
    issues := CollectChains(m.chains, itemCatalog, issues);
  }
}
