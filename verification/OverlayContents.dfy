/** Everything the overlay returns, given by the statuses and lifecycles in the catalogs
    and the draft: which references every lane, group and chain holds, in which order, and
    what is reported. */
module OverlayContents {
  import opened Text
  import opened Filters
  import opened RecommendationOverlay
  import opened OverlayResults

  // ---- The fate of an item, by statuses ----

  predicate DraftCloses(changes: map<string, Status>, id: string) {
    id in changes && (changes[id] == Shipped || changes[id] == Stale || changes[id] == Superseded)
  }

  predicate DraftPlans(env: Env, id: string) {
    id in env.itemChanges && env.itemChanges[id] == Planned
  }

  /** What the draft says decides; without a word of it, the status and the lifecycle do. */
  predicate BecomesActive(env: Env, id: string) {
    if id in env.itemChanges then env.itemChanges[id] == Active
    else
      && id in env.items
      && (|| env.items[id].status == Active
          || env.items[id].lifecycle == Some(LifecycleActive) || env.items[id].lifecycle == Some(Queue)
          || env.items[id].lifecycle == Some(Build) || env.items[id].lifecycle == Some(PrOpen))
  }

  predicate Stays(env: Env, id: string) {
    !DraftCloses(env.itemChanges, id) && !BecomesActive(env, id)
  }

  lemma FatesAre(env: Env, id: string)
    ensures FateOf(env, id, false) == Keep <==> Stays(env, id)
    ensures FateOf(env, id, false) == ToActive <==> BecomesActive(env, id)
    ensures FateOf(env, id, true) == Keep <==> !DraftCloses(env.itemChanges, id) && !DraftPlans(env, id)
    ensures FateOf(env, id, true) == ToReady <==> DraftPlans(env, id)
    ensures FateOf(env, id, true) != ToActive && FateOf(env, id, false) != ToReady
    ensures ClosedByDraft(env.itemChanges, id) <==> DraftCloses(env.itemChanges, id)
    ensures ClosedByDraft(env.epicChanges, id) <==> DraftCloses(env.epicChanges, id)
  {
  }

  function Staying(env: Env): string -> bool {
    id => Stays(env, id)
  }

  function OpenBlocker(env: Env): string -> bool {
    id => !DraftCloses(env.itemChanges, id) && id in env.items
  }

  function OpenEpic(env: Env): string -> bool {
    id => !(DraftCloses(env.epicChanges, id) && id in env.epics)
  }

  function RefStays(env: Env): ItemRef -> bool {
    (r: ItemRef) => Stays(env, r.itemId)
  }

  function RefBecomesActive(env: Env): ItemRef -> bool {
    (r: ItemRef) => BecomesActive(env, r.itemId)
  }

  function RefStaysActive(env: Env): ItemRef -> bool {
    (r: ItemRef) => !DraftCloses(env.itemChanges, r.itemId) && !DraftPlans(env, r.itemId)
  }

  // ---- Lanes ----

  function NotFor(id: string): ItemRef -> bool {
    (r: ItemRef) => r.itemId != id
  }

  /** The first reference of every item. */
  function Firsts(refs: seq<ItemRef>): seq<ItemRef> {
    if refs == [] then [] else [refs[0]] + Filter(NotFor(refs[0].itemId), Firsts(refs[1..]))
  }

  /** An item of a group or a chain, with the reason that the group or the chain gives. */
  function Bare(ids: seq<string>, rationale: Option<string>): seq<ItemRef> {
    if ids == [] then [] else [ItemRef(ids[0], None, rationale, None)] + Bare(ids[1..], rationale)
  }

  function InGroups(groups: seq<Group>): seq<ItemRef> {
    if groups == [] then [] else Bare(groups[0].itemIds, groups[0].rationale) + InGroups(groups[1..])
  }

  function InChains(chains: seq<Chain>): seq<ItemRef> {
    if chains == [] then [] else Bare(chains[0].itemIds, chains[0].rationale) + InChains(chains[1..])
  }

  /** All references outside activeWork, in the order in which the lanes are read. */
  function Outside(m: Model): seq<ItemRef> {
    m.readyCandidates + m.nextSequence + InGroups(m.groups) + InChains(m.chains)
  }

  predicate Mentions(refs: seq<ItemRef>, id: string) {
    exists r :: r in refs && r.itemId == id
  }

  /** A planned item of activeWork that no other lane has. */
  function GoesToReady(env: Env, m: Model): ItemRef -> bool {
    (r: ItemRef) => DraftPlans(env, r.itemId) && !Mentions(Outside(m), r.itemId)
  }

  /** A group loses the items that do not stay and the epics that the draft closes, and
      goes when it loses its last item. */
  function GroupsAfter(env: Env, groups: seq<Group>): seq<Group> {
    if groups == [] then []
    else
      var g, ids := groups[0], Filter(Staying(env), groups[0].itemIds);
      (if ids == [] && g.itemIds != [] then []
       else [Group(g.ref, ids, if g.epicIds.Some? then Some(Filter(OpenEpic(env), g.epicIds.value)) else None, g.rationale)])
      + GroupsAfter(env, groups[1..])
  }

  /** A chain loses the items that do not stay and the blockers that the draft closes or
      no catalog has, and goes when no item is left. */
  function ChainsAfter(env: Env, chains: seq<Chain>): seq<Chain> {
    if chains == [] then []
    else
      var c, ids := chains[0], Filter(Staying(env), chains[0].itemIds);
      (if ids == [] then [] else [Chain(c.ref, ids, Filter(OpenBlocker(env), c.blockedBy), c.rationale)])
      + ChainsAfter(env, chains[1..])
  }

  // ---- The lists that the overlay builds ----

  lemma {:induction false} WithFateIsFilter(env: Env, refs: seq<ItemRef>, inActiveWork: bool, fate: Fate, keep: ItemRef -> bool)
    requires forall r :: keep(r) <==> FateOf(env, r.itemId, inActiveWork) == fate
    ensures WithFate(env, refs, inActiveWork, fate) == Filter(keep, refs)
  {
    hide FateOf;
    if refs != [] {
      var front, last := refs[..|refs| - 1], refs[|refs| - 1];
      WithFateIsFilter(env, front, inActiveWork, fate, keep);
      assert refs == front + [last];
      FilterConcat(keep, front, [last]);
      FilterOne(keep, last);
    }
  }

  lemma {:induction false} WithoutIsFilter(refs: seq<ItemRef>, known: set<string>, keep: ItemRef -> bool)
    requires forall r :: keep(r) <==> r.itemId !in known
    ensures Without(refs, known) == Filter(keep, refs)
  {
    if refs != [] {
      var front, last := refs[..|refs| - 1], refs[|refs| - 1];
      WithoutIsFilter(front, known, keep);
      assert refs == front + [last];
      FilterConcat(keep, front, [last]);
      FilterOne(keep, last);
    }
  }

  lemma MentionsConcat(a: seq<ItemRef>, b: seq<ItemRef>, id: string)
    ensures Mentions(a + b, id) <==> Mentions(a, id) || Mentions(b, id)
  {
  }

  lemma MentionsOne(r: ItemRef, id: string)
    ensures Mentions([r], id) <==> r.itemId == id
    ensures !Mentions([], id)
  {
    assert r in [r];
  }

  lemma FirstsOne(r: ItemRef)
    ensures Firsts([r]) == [r]
  {
    assert [r][1..] == [];
  }

  lemma {:induction false} FirstsSnoc(front: seq<ItemRef>, last: ItemRef)
    ensures Firsts(front + [last]) == Firsts(front) + (if Mentions(front, last.itemId) then [] else [last])
  {
    hide Mentions, Filter;
    if front == [] {
      assert front + [last] == [last];
      FirstsOne(last);
      MentionsOne(last, last.itemId);
    } else {
      var first, rest := front[0], front[1..];
      assert (front + [last])[1..] == rest + [last] && (front + [last])[0] == first;
      FirstsSnoc(rest, last);
      var keep := NotFor(first.itemId);
      FilterConcat(keep, Firsts(rest), if Mentions(rest, last.itemId) then [] else [last]);
      FilterOne(keep, last);
      FilterNone(keep, []);
      MentionsConcat([first], rest, last.itemId);
      MentionsOne(first, last.itemId);
      assert front == [first] + rest;
      hide Firsts;
      FirstsCons(front);
      FirstsCons(front + [last]);
    }
  }

  lemma FirstsCons(refs: seq<ItemRef>)
    requires refs != []
    ensures Firsts(refs) == [refs[0]] + Filter(NotFor(refs[0].itemId), Firsts(refs[1..]))
  {
  }

  lemma MentionsAreIds(refs: seq<ItemRef>, id: string)
    ensures Mentions(refs, id) <==> id in IdSet(refs)
  {
  }

  lemma {:induction false} UniqueIsFirsts(refs: seq<ItemRef>)
    ensures Unique(refs) == Firsts(refs)
  {
    hide Mentions, IdSet, Firsts;
    if refs == [] {
      NoFirsts();
    } else {
      var front, last := refs[..|refs| - 1], refs[|refs| - 1];
      UniqueIsFirsts(front);
      FirstsSnoc(front, last);
      MentionsAreIds(front, last.itemId);
      assert refs == front + [last];
    }
  }

  lemma NoFirsts()
    ensures Firsts([]) == []
  {
  }

  /** Dropping what a front already mentions, and repetitions, from the back changes nothing. */
  lemma {:induction false} FirstsIgnore(a: seq<ItemRef>, b: seq<ItemRef>, unseen: ItemRef -> bool)
    requires forall r :: unseen(r) <==> !Mentions(a, r.itemId)
    ensures Firsts(a + Filter(unseen, Firsts(b))) == Firsts(a + b)
    decreases |b|
  {
    hide Mentions, Firsts, Filter;
    if b == [] {
      NoFirsts();
      FilterNone(unseen, b);
      assert a + [] == a && a + b == a;
    } else {
      var front, last := b[..|b| - 1], b[|b| - 1];
      assert b == front + [last];
      FirstsIgnore(a, front, unseen);
      FirstsSnoc(front, last);
      FilterConcat(unseen, Firsts(front), if Mentions(front, last.itemId) then [] else [last]);
      FilterOne(unseen, last);
      FilterNone(unseen, []);
      assert a + b == a + front + [last];
      FirstsSnoc(a + front, last);
      MentionsConcat(a, front, last.itemId);
      var kept := Filter(unseen, Firsts(front));
      if !Mentions(front, last.itemId) && unseen(last) {
        assert a + Filter(unseen, Firsts(b)) == a + kept + [last];
        FirstsSnoc(a + kept, last);
        KeptMentions(a, front, unseen, last.itemId);
      } else {
        assert Filter(unseen, Firsts(b)) == kept + [] == kept;
      }
    }
  }

  lemma KeptMentions(a: seq<ItemRef>, b: seq<ItemRef>, unseen: ItemRef -> bool, id: string)
    requires !Mentions(a, id) && !Mentions(b, id)
    ensures !Mentions(a + Filter(unseen, Firsts(b)), id)
  {
    UniqueIsFirsts(b);
    UniqueIds(b);
    hide Firsts;
    MentionsConcat(a, Filter(unseen, Firsts(b)), id);
  }

  lemma {:induction false} BareSnoc(ids: seq<string>, id: string, rationale: Option<string>)
    ensures Bare(ids + [id], rationale) == Bare(ids, rationale) + [ItemRef(id, None, rationale, None)]
  {
    if ids == [] {
      assert ids + [id] == [id] && [id][1..] == [];
    } else {
      assert (ids + [id])[1..] == ids[1..] + [id];
      BareSnoc(ids[1..], id, rationale);
    }
  }

  lemma {:induction false} RefsAreBare(ids: seq<string>, rationale: Option<string>)
    ensures RefsOf(ids, rationale) == Bare(ids, rationale)
  {
    if ids != [] {
      var front, last := ids[..|ids| - 1], ids[|ids| - 1];
      RefsAreBare(front, rationale);
      BareSnoc(front, last, rationale);
      assert ids == front + [last];
      assert RefsOf(ids, rationale) == RefsOf(front, rationale) + [ItemRef(last, None, rationale, None)];
    }
  }

  lemma {:induction false} InGroupsSnoc(groups: seq<Group>, g: Group)
    ensures InGroups(groups + [g]) == InGroups(groups) + Bare(g.itemIds, g.rationale)
  {
    if groups == [] {
      assert groups + [g] == [g] && [g][1..] == [];
    } else {
      assert (groups + [g])[1..] == groups[1..] + [g];
      InGroupsSnoc(groups[1..], g);
    }
  }

  lemma {:induction false} InChainsSnoc(chains: seq<Chain>, c: Chain)
    ensures InChains(chains + [c]) == InChains(chains) + Bare(c.itemIds, c.rationale)
  {
    if chains == [] {
      assert chains + [c] == [c] && [c][1..] == [];
    } else {
      assert (chains + [c])[1..] == chains[1..] + [c];
      InChainsSnoc(chains[1..], c);
    }
  }

  lemma {:induction false} GroupRefsAre(groups: seq<Group>)
    ensures GroupRefs(groups) == InGroups(groups)
  {
    if groups != [] {
      var front, g := groups[..|groups| - 1], groups[|groups| - 1];
      GroupRefsAre(front);
      RefsAreBare(g.itemIds, g.rationale);
      InGroupsSnoc(front, g);
      assert groups == front + [g];
    }
  }

  lemma {:induction false} ChainRefsAre(chains: seq<Chain>)
    ensures ChainRefs(chains) == InChains(chains)
  {
    if chains != [] {
      var front, c := chains[..|chains| - 1], chains[|chains| - 1];
      ChainRefsAre(front);
      RefsAreBare(c.itemIds, c.rationale);
      InChainsSnoc(front, c);
      assert chains == front + [c];
    }
  }

  lemma OutsideIs(m: Model)
    ensures NonActiveRefs(m) == Outside(m)
    ensures forall id :: Mentions(Outside(m), id) <==> id in NonActiveIds(m)
  {
    GroupRefsAre(m.groups);
    ChainRefsAre(m.chains);
    NonActiveRefsIds(m);
    hide Mentions, IdSet;
    forall id
      ensures Mentions(Outside(m), id) <==> id in NonActiveIds(m)
    {
      MentionsAreIds(Outside(m), id);
    }
  }

  // ---- Groups and chains ----

  lemma {:induction false} KeptIdsIsFilter(env: Env, ids: seq<string>)
    ensures KeptIds(env, ids) == Filter(Staying(env), ids)
  {
    hide FateOf, Stays;
    if ids != [] {
      var front, last := ids[..|ids| - 1], ids[|ids| - 1];
      KeptIdsIsFilter(env, front);
      FatesAre(env, last);
      assert ids == front + [last];
      FilterConcat(Staying(env), front, [last]);
      FilterOne(Staying(env), last);
      var refs := RefsOf(ids, None);
      assert refs[..|ids| - 1] == RefsOf(front, None) && refs[|ids| - 1].itemId == last;
      var kept := WithFate(env, RefsOf(front, None), false, Keep);
      assert IdsOf(kept + [refs[|ids| - 1]]) == IdsOf(kept) + [last];
      assert kept + [] == kept;
    }
  }

  lemma {:induction false} KeptEpicsIsFilter(env: Env, ids: seq<string>)
    ensures KeptEpics(env, ids) == Filter(OpenEpic(env), ids)
  {
    if ids != [] {
      var front, last := ids[..|ids| - 1], ids[|ids| - 1];
      KeptEpicsIsFilter(env, front);
      FatesAre(env, last);
      assert ids == front + [last];
      FilterConcat(OpenEpic(env), front, [last]);
      FilterOne(OpenEpic(env), last);
    }
  }

  lemma {:induction false} KeptBlockersIsFilter(env: Env, ids: seq<string>)
    ensures KeptBlockers(env, ids) == Filter(OpenBlocker(env), ids)
  {
    if ids != [] {
      var front, last := ids[..|ids| - 1], ids[|ids| - 1];
      KeptBlockersIsFilter(env, front);
      FatesAre(env, last);
      assert ids == front + [last];
      FilterConcat(OpenBlocker(env), front, [last]);
      FilterOne(OpenBlocker(env), last);
    }
  }

  lemma {:induction false} GroupsAfterSnoc(env: Env, groups: seq<Group>, g: Group)
    ensures GroupsAfter(env, groups + [g]) == GroupsAfter(env, groups) + GroupsAfter(env, [g])
  {
    if groups == [] {
      assert groups + [g] == [g];
    } else {
      assert (groups + [g])[1..] == groups[1..] + [g];
      GroupsAfterSnoc(env, groups[1..], g);
    }
  }

  lemma GroupAfterIs(env: Env, g: Group)
    ensures OverlayGroup(env, g) == GroupsAfter(env, [g])
  {
    KeptIdsIsFilter(env, g.itemIds);
    if g.epicIds.Some? {
      KeptEpicsIsFilter(env, g.epicIds.value);
    }
    hide KeptIds, KeptEpics, Filter;
    assert [g][1..] == [];
  }

  lemma {:induction false} GroupsAreAfter(env: Env, groups: seq<Group>)
    ensures OverlayGroups(env, groups) == GroupsAfter(env, groups)
  {
    hide OverlayGroup;
    if groups != [] {
      var front, g := groups[..|groups| - 1], groups[|groups| - 1];
      GroupsAreAfter(env, front);
      GroupAfterIs(env, g);
      GroupsAfterSnoc(env, front, g);
      assert groups == front + [g];
    }
  }

  lemma {:induction false} ChainsAfterSnoc(env: Env, chains: seq<Chain>, c: Chain)
    ensures ChainsAfter(env, chains + [c]) == ChainsAfter(env, chains) + ChainsAfter(env, [c])
  {
    if chains == [] {
      assert chains + [c] == [c];
    } else {
      assert (chains + [c])[1..] == chains[1..] + [c];
      ChainsAfterSnoc(env, chains[1..], c);
    }
  }

  lemma ChainAfterIs(env: Env, c: Chain)
    ensures OverlayChain(env, c) == ChainsAfter(env, [c])
  {
    KeptIdsIsFilter(env, c.itemIds);
    KeptBlockersIsFilter(env, c.blockedBy);
    hide KeptIds, KeptBlockers, Filter;
    assert [c][1..] == [];
  }

  lemma {:induction false} ChainsAreAfter(env: Env, chains: seq<Chain>)
    ensures OverlayChains(env, chains) == ChainsAfter(env, chains)
  {
    hide OverlayChain;
    if chains != [] {
      var front, c := chains[..|chains| - 1], chains[|chains| - 1];
      ChainsAreAfter(env, front);
      ChainAfterIs(env, c);
      ChainsAfterSnoc(env, front, c);
      assert chains == front + [c];
    }
  }

  // ---- Main results ----

  lemma ActiveWorkIs(env: Env, m: Model)
    ensures Overlay(env, m).model.activeWork
         == Firsts(Filter(RefStaysActive(env), m.activeWork) + Filter(RefBecomesActive(env), Outside(m)))
  {
    hide FateOf, Stays, BecomesActive, Firsts, Unique, Without, WithFate, Mentions, IdSet, DraftPlans, DraftCloses;
    OutsideIs(m);
    forall id
      ensures FateOf(env, id, true) == Keep <==> !DraftCloses(env.itemChanges, id) && !DraftPlans(env, id)
      ensures FateOf(env, id, false) == ToActive <==> BecomesActive(env, id)
    {
      FatesAre(env, id);
    }
    WithFateIsFilter(env, m.activeWork, true, Keep, RefStaysActive(env));
    WithFateIsFilter(env, Outside(m), false, ToActive, RefBecomesActive(env));
    var kept, risen := Filter(RefStaysActive(env), m.activeWork), Filter(RefBecomesActive(env), Outside(m));
    UniqueIsFirsts(risen);
    var unseen: ItemRef -> bool := (r: ItemRef) => r.itemId !in IdSet(kept);
    WithoutIsFilter(Firsts(risen), IdSet(kept), unseen);
    forall r: ItemRef
      ensures unseen(r) <==> !Mentions(kept, r.itemId)
    {
      MentionsAreIds(kept, r.itemId);
    }
    FirstsIgnore(kept, risen, unseen);
    UniqueIsFirsts(kept + Filter(unseen, Firsts(risen)));
  }

  /** A planned item stays in every other lane that has it. */
  lemma PlannedStays(env: Env, m: Model, id: string)
    requires DraftPlans(env, id)
    ensures id in NonActiveIds(Filtered(env, m)) <==> Mentions(Outside(m), id)
  {
    OutsideIs(m);
    FilteredLanes(env, m);
    FatesAre(env, id);
    hide NonActiveIds, Mentions, Filtered, FateOf;
  }

  lemma ReadyCandidatesAre(env: Env, m: Model)
    ensures Overlay(env, m).model.readyCandidates
         == Firsts(Filter(RefStays(env), m.readyCandidates) + Filter(GoesToReady(env, m), m.activeWork))
  {
    hide FateOf, Stays, BecomesActive, Firsts, Unique, Without, WithFate, Mentions, IdSet, DraftPlans, DraftCloses, NonActiveIds, Outside;
    forall id
      ensures FateOf(env, id, true) == ToReady <==> DraftPlans(env, id)
      ensures FateOf(env, id, false) == Keep <==> Stays(env, id)
    {
      FatesAre(env, id);
    }
    var plans: ItemRef -> bool := (r: ItemRef) => DraftPlans(env, r.itemId);
    WithFateIsFilter(env, m.readyCandidates, false, Keep, RefStays(env));
    WithFateIsFilter(env, m.activeWork, true, ToReady, plans);
    var kept, planned := Filter(RefStays(env), m.readyCandidates), Filter(plans, m.activeWork);
    UniqueIsFirsts(planned);
    var known := NonActiveIds(Filtered(env, m));
    var unseen: ItemRef -> bool := (r: ItemRef) => r.itemId !in known;
    WithoutIsFilter(Firsts(planned), known, unseen);
    FirstsOfFilter(unseen, planned);
    FreshPlanned(env, m, known, plans, unseen);
    var moved := Filter(GoesToReady(env, m), m.activeWork);
    UniqueIsFirsts(kept + Firsts(moved));
    DisjointFirsts(kept, moved);
  }

  /** Dropping all references of some items before or after dropping repetitions. */
  lemma {:induction false} FirstsOfFilter(unseen: ItemRef -> bool, refs: seq<ItemRef>)
    requires forall r: ItemRef, q: ItemRef :: r.itemId == q.itemId ==> (unseen(r) <==> unseen(q))
    ensures Filter(unseen, Firsts(refs)) == Firsts(Filter(unseen, refs))
    decreases |refs|
  {
    hide Mentions, Firsts, Filter;
    if refs == [] {
      NoFirsts();
      FilterNone(unseen, refs);
    } else {
      var front, last := refs[..|refs| - 1], refs[|refs| - 1];
      assert refs == front + [last];
      FirstsOfFilter(unseen, front);
      FirstsSnoc(front, last);
      FilterConcat(unseen, Firsts(front), if Mentions(front, last.itemId) then [] else [last]);
      FilterConcat(unseen, front, [last]);
      FilterOne(unseen, last);
      FilterNone(unseen, []);
      FirstsSnoc(Filter(unseen, front), last);
      MentionsFiltered(unseen, front, last);
      assert Filter(unseen, front) + [] == Filter(unseen, front);
    }
  }

  lemma MentionsFiltered(unseen: ItemRef -> bool, refs: seq<ItemRef>, last: ItemRef)
    requires forall r: ItemRef, q: ItemRef :: r.itemId == q.itemId ==> (unseen(r) <==> unseen(q))
    ensures unseen(last) ==> (Mentions(Filter(unseen, refs), last.itemId) <==> Mentions(refs, last.itemId))
  {
  }

  lemma FreshPlanned(env: Env, m: Model, known: set<string>, plans: ItemRef -> bool, unseen: ItemRef -> bool)
    requires known == NonActiveIds(Filtered(env, m))
    requires (forall r :: plans(r) <==> DraftPlans(env, r.itemId)) && forall r :: unseen(r) <==> r.itemId !in known
    ensures Filter(unseen, Filter(plans, m.activeWork)) == Filter(GoesToReady(env, m), m.activeWork)
  {
    hide NonActiveIds, Filtered, Mentions, Outside, DraftPlans;
    forall r
      ensures GoesToReady(env, m)(r) <==> plans(r) && unseen(r)
    {
      if plans(r) {
        PlannedStays(env, m, r.itemId);
      }
    }
    FilterTwice(plans, unseen, GoesToReady(env, m), m.activeWork);
  }

  /** Repetitions inside the back of a list can be dropped first. */
  lemma DisjointFirsts(a: seq<ItemRef>, b: seq<ItemRef>)
    ensures Firsts(a + Firsts(b)) == Firsts(a + b)
  {
    hide Firsts, Filter, Mentions;
    var unseen: ItemRef -> bool := (r: ItemRef) => !Mentions(a, r.itemId);
    FirstsIgnore(a, b, unseen);
    FirstsIgnore(a, Firsts(b), unseen);
    FirstsTwice(b);
  }

  lemma FirstsTwice(refs: seq<ItemRef>)
    ensures Firsts(Firsts(refs)) == Firsts(refs)
  {
    UniqueIsFirsts(refs);
    UniqueIsDistinct(refs);
    UniqueOfDistinct(Unique(refs));
    UniqueIsFirsts(Unique(refs));
  }

  /** The five lanes after the overlay. */
  lemma OverlaidModel(env: Env, m: Model)
    ensures var o := Overlay(env, m).model;
            && o.activeWork == Firsts(Filter(RefStaysActive(env), m.activeWork) + Filter(RefBecomesActive(env), Outside(m)))
            && o.readyCandidates == Firsts(Filter(RefStays(env), m.readyCandidates) + Filter(GoesToReady(env, m), m.activeWork))
            && o.nextSequence == Firsts(Filter(RefStays(env), m.nextSequence))
            && o.groups == GroupsAfter(env, m.groups) && o.chains == ChainsAfter(env, m.chains)
  {
    ActiveWorkIs(env, m);
    ReadyCandidatesAre(env, m);
    GroupsAreAfter(env, m.groups);
    ChainsAreAfter(env, m.chains);
    forall id
      ensures FateOf(env, id, false) == Keep <==> Stays(env, id)
    {
      FatesAre(env, id);
    }
    hide FateOf, Stays, BecomesActive, Firsts, Unique, Without, WithFate, AppendNote, RemovedItems, RemovedEpics, AllMoves, OverlayGroups, OverlayChains, GroupsAfter, ChainsAfter, MovedToReady, MovedToActive, NonActiveIds;
    WithFateIsFilter(env, m.nextSequence, false, Keep, RefStays(env));
    UniqueIsFirsts(Filter(RefStays(env), m.nextSequence));
  }

  // ---- The report ----

  predicate Blocks(chains: seq<Chain>, id: string) {
    exists c :: c in chains && id in c.blockedBy
  }

  /** Exactly the ids that the draft closes are reported as removed, as far as a lane or a
      blockedBy list has them; and of the known epics those that it closes and a group has. */
  lemma RemovedAre(env: Env, m: Model, id: string)
    ensures id in Overlay(env, m).removedItems
       <==> DraftCloses(env.itemChanges, id) && (Mentions(m.activeWork, id) || Mentions(Outside(m), id) || Blocks(m.chains, id))
    ensures id in Overlay(env, m).removedEpics
       <==> DraftCloses(env.epicChanges, id) && id in env.epics && exists g :: g in m.groups && g.epicIds.Some? && id in g.epicIds.value
  {
    FatesAre(env, id);
    OutsideIs(m);
    MentionsAreIds(m.activeWork, id);
    hide Mentions, Outside, DraftCloses, NonActiveIds, IdSet, WithFate, Unique, Without, AllMoves, AppendNote, OverlayGroups, OverlayChains;
  }

  predicate Holds(m: Model, lane: Lane, id: string) {
    match lane
    case ActiveWork => Mentions(m.activeWork, id)
    case ReadyCandidates => Mentions(m.readyCandidates, id)
    case NextSequence => Mentions(m.nextSequence, id)
    case GroupItems(ref) => exists g :: g in m.groups && g.ref == ref && id in g.itemIds
    case ChainItems(ref) => exists c :: c in m.chains && c.ref == ref && id in c.itemIds
  }

  predicate Moved(env: Env, move: Move) {
    if move.from == ActiveWork then move.to == ReadyCandidates && DraftPlans(env, move.itemId)
    else move.to == ActiveWork && BecomesActive(env, move.itemId)
  }

  lemma {:induction false} MovesAre(env: Env, refs: seq<ItemRef>, lane: Lane, move: Move)
    ensures move in MovesOf(env, refs, lane) <==> move.from == lane && Mentions(refs, move.itemId) && Moved(env, move)
  {
    hide FateOf, BecomesActive, DraftPlans, Mentions;
    if refs == [] {
      MentionsOne(ItemRef("", None, None, None), move.itemId);
    } else {
      var front, last := refs[..|refs| - 1], refs[|refs| - 1];
      MovesAre(env, front, lane, move);
      FatesAre(env, last.itemId);
      MentionsConcat(front, [last], move.itemId);
      MentionsOne(last, move.itemId);
      assert refs == front + [last];
    }
  }

  lemma BareMentions(ids: seq<string>, rationale: Option<string>, id: string)
    ensures Mentions(RefsOf(ids, rationale), id) <==> id in ids
  {
    RefsOfIds(ids, rationale);
    MentionsAreIds(RefsOf(ids, rationale), id);
    hide Mentions, RefsOf;
  }

  lemma {:induction false} GroupMovesAre(env: Env, groups: seq<Group>, move: Move)
    ensures move in GroupMoves(env, groups)
       <==> Moved(env, move) && exists g :: g in groups && move.from == GroupItems(g.ref) && move.itemId in g.itemIds
  {
    hide Moved, Mentions, RefsOf, MovesOf;
    if groups != [] {
      var front, g := groups[..|groups| - 1], groups[|groups| - 1];
      GroupMovesAre(env, front, move);
      MovesAre(env, RefsOf(g.itemIds, g.rationale), GroupItems(g.ref), move);
      BareMentions(g.itemIds, g.rationale, move.itemId);
      assert groups == front + [g];
    }
  }

  lemma {:induction false} ChainMovesAre(env: Env, chains: seq<Chain>, move: Move)
    ensures move in ChainMoves(env, chains)
       <==> Moved(env, move) && exists c :: c in chains && move.from == ChainItems(c.ref) && move.itemId in c.itemIds
  {
    hide Moved, Mentions, RefsOf, MovesOf;
    if chains != [] {
      var front, c := chains[..|chains| - 1], chains[|chains| - 1];
      ChainMovesAre(env, front, move);
      MovesAre(env, RefsOf(c.itemIds, c.rationale), ChainItems(c.ref), move);
      BareMentions(c.itemIds, c.rationale, move.itemId);
      assert chains == front + [c];
    }
  }

  /** Exactly the references that the overlay takes to another lane are reported as moved,
      from the lane that held them. */
  lemma RepositionedAre(env: Env, m: Model, move: Move)
    ensures move in Overlay(env, m).moves <==> Holds(m, move.from, move.itemId) && Moved(env, move)
  {
    MovesAre(env, m.activeWork, ActiveWork, move);
    MovesAre(env, m.readyCandidates, ReadyCandidates, move);
    MovesAre(env, m.nextSequence, NextSequence, move);
    GroupMovesAre(env, m.groups, move);
    ChainMovesAre(env, m.chains, move);
    hide Mentions, Moved, MovesOf, GroupMoves, ChainMoves, WithFate, Unique, Without, AppendNote, OverlayGroups, OverlayChains, RemovedItems, RemovedEpics;
  }

  /** A sentence is added when anything was removed or moved, and lists the removed items,
      the removed epics and the items that moved. */
  lemma NoteIs(env: Env, m: Model)
    ensures var o := Overlay(env, m);
            && (o.removedItems == {} && o.removedEpics == {} && o.moves == [] <==> o.model.notes == m.notes)
            && (o.model.notes == m.notes ||
                exists note :: o.model.notes == m.notes + [note] && note.Adjusted? && note.items == o.removedItems && note.epics == o.removedEpics
                               && forall id :: id in note.moved <==> exists move :: move in o.moves && move.itemId == id)
  {
    hide RemovedItems, RemovedEpics, AllMoves, WithFate, Unique, Without, OverlayGroups, OverlayChains;
    var o := Overlay(env, m);
    if !(o.removedItems == {} && o.removedEpics == {} && o.moves == []) {
      var note := Adjusted(o.removedItems, o.removedEpics, set move | move in o.moves :: move.itemId);
      assert o.model.notes == m.notes + [note];
      assert |o.model.notes| != |m.notes|;
    }
  }
}
