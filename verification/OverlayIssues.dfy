/** Which issues the recommendation validator reports, one reference at a time. */
module OverlayIssues {
  import opened Text
  import opened RecommendationOverlay
  import opened OverlayValidity

  /** A reference to a record that is not there, or is there with a closed status. */
  predicate NotOpen(catalog: Catalogs, id: string, reason: Reason) {
    match reason
    case UnknownId => id !in catalog
    case ClosedId => id in catalog && (catalog[id].status == Shipped || catalog[id].status == Stale || catalog[id].status == Superseded)
    case _ => false
  }

  /** activeWork wants an active status or a running lifecycle, any other lane a status
      that is not active. */
  predicate Misplaced(catalog: Catalogs, id: string, inActiveWork: bool) {
    && id in catalog && !NotOpen(catalog, id, ClosedId)
    && if inActiveWork then
         && catalog[id].status != Active && catalog[id].lifecycle != Some(LifecycleActive) && catalog[id].lifecycle != Some(Queue)
         && catalog[id].lifecycle != Some(Build) && catalog[id].lifecycle != Some(PrOpen)
       else catalog[id].status == Active
  }

  predicate Faulty(catalog: Catalogs, id: string, inActiveWork: bool, reason: Reason) {
    NotOpen(catalog, id, reason) || (reason.WrongLane? && Misplaced(catalog, id, inActiveWork))
  }

  lemma RefIssuesAreFaults(where: Where, id: string, catalog: Catalogs, inActiveWork: bool, issue: Issue)
    ensures issue in RefIssues(where, id, catalog, inActiveWork)
       <==> issue.where == where && issue.id == id && Faulty(catalog, id, inActiveWork, issue.reason)
  {
  }

  lemma {:induction false} LaneFaults(refs: seq<ItemRef>, lane: Lane, catalog: Catalogs, issue: Issue)
    ensures issue in LaneRefIssues(refs, lane, catalog)
       <==> && issue.where.At? && issue.where.lane == lane && issue.where.index < |refs|
            && refs[issue.where.index].itemId == issue.id && Faulty(catalog, issue.id, lane == ActiveWork, issue.reason)
  {
    hide RefIssues, Faulty;
    if refs != [] {
      var n := |refs| - 1;
      LaneFaults(refs[..n], lane, catalog, issue);
      RefIssuesAreFaults(At(lane, n), refs[n].itemId, catalog, lane == ActiveWork, issue);
    }
  }

  lemma {:induction false} ItemFaults(ids: seq<string>, lane: Lane, catalog: Catalogs, issue: Issue)
    ensures issue in ItemIssues(ids, lane, catalog)
       <==> issue.where == Within(lane) && issue.id in ids && Faulty(catalog, issue.id, false, issue.reason)
  {
    hide RefIssues, Faulty;
    if ids != [] {
      var front, last := ids[..|ids| - 1], ids[|ids| - 1];
      ItemFaults(front, lane, catalog, issue);
      RefIssuesAreFaults(Within(lane), last, catalog, false, issue);
      assert ids == front + [last];
    }
  }

  lemma {:induction false} ReferenceFaults(ids: seq<string>, where: Where, catalog: Catalogs, issue: Issue)
    ensures issue in ReferenceIssues(ids, where, catalog)
       <==> issue.where == where && issue.id in ids && NotOpen(catalog, issue.id, issue.reason)
  {
    if ids != [] {
      var front, last := ids[..|ids| - 1], ids[|ids| - 1];
      ReferenceFaults(front, where, catalog, issue);
      assert ids == front + [last];
    }
  }

  /** An issue about a group: it is empty, or one of its items or epics is at fault. */
  predicate GroupFault(g: Group, items: Catalogs, epics: Catalogs, issue: Issue) {
    || (issue == Issue(Within(GroupItems(g.ref)), "", EmptyGroup) && g.itemIds == [])
    || (issue.where == Within(GroupItems(g.ref)) && issue.id in g.itemIds && Faulty(items, issue.id, false, issue.reason))
    || (issue.where == EpicsOf(g.ref) && g.epicIds.Some? && issue.id in g.epicIds.value && NotOpen(epics, issue.id, issue.reason))
  }

  predicate ChainFault(c: Chain, items: Catalogs, issue: Issue) {
    || (issue.where == Within(ChainItems(c.ref)) && issue.id in c.itemIds && Faulty(items, issue.id, false, issue.reason))
    || (issue.where == BlockersOf(c.ref) && issue.id in c.blockedBy && NotOpen(items, issue.id, issue.reason))
  }

  lemma GroupFaults(g: Group, items: Catalogs, epics: Catalogs, issue: Issue)
    ensures issue in GroupIssues(g, items, epics) <==> GroupFault(g, items, epics, issue)
  {
    hide Faulty, NotOpen, ItemIssues, ReferenceIssues;
    ItemFaults(g.itemIds, GroupItems(g.ref), items, issue);
    if g.epicIds.Some? {
      ReferenceFaults(g.epicIds.value, EpicsOf(g.ref), epics, issue);
    }
  }

  lemma ChainFaults(c: Chain, items: Catalogs, issue: Issue)
    ensures issue in ChainIssues(c, items) <==> ChainFault(c, items, issue)
  {
    hide Faulty, NotOpen, ItemIssues, ReferenceIssues;
    ItemFaults(c.itemIds, ChainItems(c.ref), items, issue);
    ReferenceFaults(c.blockedBy, BlockersOf(c.ref), items, issue);
  }

  lemma {:induction false} GroupsFaults(groups: seq<Group>, items: Catalogs, epics: Catalogs, issue: Issue)
    ensures issue in GroupsIssues(groups, items, epics) <==> exists g :: g in groups && GroupFault(g, items, epics, issue)
  {
    hide GroupFault, GroupIssues;
    if groups != [] {
      var front, g := groups[..|groups| - 1], groups[|groups| - 1];
      GroupsFaults(front, items, epics, issue);
      GroupFaults(g, items, epics, issue);
      assert groups == front + [g];
    }
  }

  lemma {:induction false} ChainsFaults(chains: seq<Chain>, items: Catalogs, issue: Issue)
    ensures issue in ChainsIssues(chains, items) <==> exists c :: c in chains && ChainFault(c, items, issue)
  {
    hide ChainFault, ChainIssues;
    if chains != [] {
      var front, c := chains[..|chains| - 1], chains[|chains| - 1];
      ChainsFaults(front, items, issue);
      ChainFaults(c, items, issue);
      assert chains == front + [c];
    }
  }

  /** The references of a lane that is a list of references. */
  predicate LaneFault(refs: seq<ItemRef>, lane: Lane, items: Catalogs, issue: Issue) {
    && issue.where.At? && issue.where.lane == lane && issue.where.index < |refs|
    && refs[issue.where.index].itemId == issue.id && Faulty(items, issue.id, lane == ActiveWork, issue.reason)
  }

  /** The validator reports an issue, with its place, its id and its reason, if and only if
      that reference is at fault in that way. */
  lemma IssuesAreFaults(m: Model, items: Catalogs, epics: Catalogs, issue: Issue)
    ensures issue in Issues(m, items, epics)
       <==> || LaneFault(m.activeWork, ActiveWork, items, issue)
            || LaneFault(m.readyCandidates, ReadyCandidates, items, issue)
            || LaneFault(m.nextSequence, NextSequence, items, issue)
            || (exists g :: g in m.groups && GroupFault(g, items, epics, issue))
            || (exists c :: c in m.chains && ChainFault(c, items, issue))
  {
    hide GroupFault, ChainFault, Faulty, LaneRefIssues, GroupsIssues, ChainsIssues;
    LaneFaults(m.activeWork, ActiveWork, items, issue);
    LaneFaults(m.readyCandidates, ReadyCandidates, items, issue);
    LaneFaults(m.nextSequence, NextSequence, items, issue);
    GroupsFaults(m.groups, items, epics, issue);
    ChainsFaults(m.chains, items, issue);
  }

  // ---- The order of the issues ----

  /** A place that is checked: an item in a lane, an item or epic that only has to be open,
      or a group without items. */
  datatype Site =
    | ItemSite(where: Where, id: string, inActiveWork: bool)
    | LinkSite(where: Where, id: string, epic: bool)
    | EmptySite(group: string)

  function LaneSites(refs: seq<ItemRef>, lane: Lane): seq<Site> {
    seq(|refs|, i requires 0 <= i < |refs| => ItemSite(At(lane, i), refs[i].itemId, lane == ActiveWork))
  }

  function ItemSites(ids: seq<string>, lane: Lane): seq<Site> {
    seq(|ids|, i requires 0 <= i < |ids| => ItemSite(Within(lane), ids[i], false))
  }

  function LinkSites(ids: seq<string>, where: Where, epic: bool): seq<Site> {
    seq(|ids|, i requires 0 <= i < |ids| => LinkSite(where, ids[i], epic))
  }

  function GroupSites(g: Group): seq<Site> {
    (if g.itemIds == [] then [EmptySite(g.ref)] else [])
    + ItemSites(g.itemIds, GroupItems(g.ref))
    + (if g.epicIds.Some? then LinkSites(g.epicIds.value, EpicsOf(g.ref), true) else [])
  }

  function ChainSites(c: Chain): seq<Site> {
    ItemSites(c.itemIds, ChainItems(c.ref)) + LinkSites(c.blockedBy, BlockersOf(c.ref), false)
  }

  function GroupsSites(groups: seq<Group>): seq<Site> {
    if groups == [] then [] else GroupSites(groups[0]) + GroupsSites(groups[1..])
  }

  function ChainsSites(chains: seq<Chain>): seq<Site> {
    if chains == [] then [] else ChainSites(chains[0]) + ChainsSites(chains[1..])
  }

  /** Every place of a model, lane by lane, in the order in which it lists them. */
  function Sites(m: Model): seq<Site> {
    LaneSites(m.activeWork, ActiveWork) + LaneSites(m.readyCandidates, ReadyCandidates) + LaneSites(m.nextSequence, NextSequence)
    + GroupsSites(m.groups) + ChainsSites(m.chains)
  }

  /** What is wrong at a place, if anything. */
  function FaultAt(site: Site, items: Catalogs, epics: Catalogs): seq<Issue> {
    match site
    case EmptySite(group) => [Issue(Within(GroupItems(group)), "", EmptyGroup)]
    case LinkSite(where, id, epic) =>
      var catalog := if epic then epics else items;
      if NotOpen(catalog, id, UnknownId) then [Issue(where, id, UnknownId)]
      else if NotOpen(catalog, id, ClosedId) then [Issue(where, id, ClosedId)]
      else []
    case ItemSite(where, id, inActiveWork) =>
      if NotOpen(items, id, UnknownId) then [Issue(where, id, UnknownId)]
      else if NotOpen(items, id, ClosedId) then [Issue(where, id, ClosedId)]
      else if Misplaced(items, id, inActiveWork) then [Issue(where, id, WrongLane)]
      else []
  }

  function Faults(sites: seq<Site>, items: Catalogs, epics: Catalogs): seq<Issue> {
    if sites == [] then [] else FaultAt(sites[0], items, epics) + Faults(sites[1..], items, epics)
  }

  lemma {:induction false} FaultsConcat(a: seq<Site>, b: seq<Site>, items: Catalogs, epics: Catalogs)
    ensures Faults(a + b, items, epics) == Faults(a, items, epics) + Faults(b, items, epics)
  {
    hide FaultAt;
    if a == [] {
      assert a + b == b;
    } else {
      assert (a + b)[1..] == a[1..] + b;
      FaultsConcat(a[1..], b, items, epics);
    }
  }

  lemma FaultsSnoc(front: seq<Site>, last: Site, items: Catalogs, epics: Catalogs)
    ensures Faults(front + [last], items, epics) == Faults(front, items, epics) + FaultAt(last, items, epics)
  {
    hide FaultAt;
    FaultsConcat(front, [last], items, epics);
    assert [last][1..] == [];
    assert FaultAt(last, items, epics) + [] == FaultAt(last, items, epics);
  }

  lemma ItemFaultIs(where: Where, id: string, inActiveWork: bool, items: Catalogs, epics: Catalogs)
    ensures RefIssues(where, id, items, inActiveWork) == FaultAt(ItemSite(where, id, inActiveWork), items, epics)
  {
  }

  lemma LaneSitesSnoc(refs: seq<ItemRef>, lane: Lane)
    requires refs != []
    ensures var n := |refs| - 1;
            LaneSites(refs, lane) == LaneSites(refs[..n], lane) + [ItemSite(At(lane, n), refs[n].itemId, lane == ActiveWork)]
  {
  }

  lemma ItemSitesSnoc(ids: seq<string>, lane: Lane)
    requires ids != []
    ensures ItemSites(ids, lane) == ItemSites(ids[..|ids| - 1], lane) + [ItemSite(Within(lane), ids[|ids| - 1], false)]
  {
  }

  lemma LinkSitesSnoc(ids: seq<string>, where: Where, epic: bool)
    requires ids != []
    ensures LinkSites(ids, where, epic) == LinkSites(ids[..|ids| - 1], where, epic) + [LinkSite(where, ids[|ids| - 1], epic)]
  {
  }

  lemma NoFaults(items: Catalogs, epics: Catalogs)
    ensures Faults([], items, epics) == []
  {
  }

  lemma {:induction false} LaneInOrder(refs: seq<ItemRef>, lane: Lane, items: Catalogs, epics: Catalogs)
    ensures LaneRefIssues(refs, lane, items) == Faults(LaneSites(refs, lane), items, epics)
  {
    hide RefIssues, FaultAt, Faults;
    if refs == [] {
      assert LaneSites(refs, lane) == [];
      NoFaults(items, epics);
    } else {
      hide LaneSites;
      var n := |refs| - 1;
      LaneInOrder(refs[..n], lane, items, epics);
      ItemFaultIs(At(lane, n), refs[n].itemId, lane == ActiveWork, items, epics);
      LaneSitesSnoc(refs, lane);
      FaultsSnoc(LaneSites(refs[..n], lane), ItemSite(At(lane, n), refs[n].itemId, lane == ActiveWork), items, epics);
    }
  }

  lemma {:induction false} ItemsInOrder(ids: seq<string>, lane: Lane, items: Catalogs, epics: Catalogs)
    ensures ItemIssues(ids, lane, items) == Faults(ItemSites(ids, lane), items, epics)
  {
    hide RefIssues, FaultAt, Faults;
    if ids == [] {
      assert ItemSites(ids, lane) == [];
      NoFaults(items, epics);
    } else {
      hide ItemSites;
      var front, last := ids[..|ids| - 1], ids[|ids| - 1];
      ItemsInOrder(front, lane, items, epics);
      ItemFaultIs(Within(lane), last, false, items, epics);
      ItemSitesSnoc(ids, lane);
      FaultsSnoc(ItemSites(front, lane), ItemSite(Within(lane), last, false), items, epics);
    }
  }

  lemma LinkFaultIs(where: Where, id: string, epic: bool, items: Catalogs, epics: Catalogs)
    ensures OpenIssues(where, id, if epic then epics else items) == FaultAt(LinkSite(where, id, epic), items, epics)
  {
  }

  lemma {:induction false} LinksInOrder(ids: seq<string>, where: Where, epic: bool, items: Catalogs, epics: Catalogs)
    ensures ReferenceIssues(ids, where, if epic then epics else items) == Faults(LinkSites(ids, where, epic), items, epics)
  {
    hide OpenIssues, FaultAt, Faults;
    if ids == [] {
      assert LinkSites(ids, where, epic) == [];
      NoFaults(items, epics);
    } else {
      hide LinkSites;
      var front, last := ids[..|ids| - 1], ids[|ids| - 1];
      LinksInOrder(front, where, epic, items, epics);
      LinkFaultIs(where, last, epic, items, epics);
      LinkSitesSnoc(ids, where, epic);
      FaultsSnoc(LinkSites(front, where, epic), LinkSite(where, last, epic), items, epics);
    }
  }

  lemma GroupInOrder(g: Group, items: Catalogs, epics: Catalogs)
    ensures GroupIssues(g, items, epics) == Faults(GroupSites(g), items, epics)
  {
    hide ItemIssues, ReferenceIssues, ItemSites, LinkSites;
    var empty: seq<Site> := if g.itemIds == [] then [EmptySite(g.ref)] else [];
    var inside := ItemSites(g.itemIds, GroupItems(g.ref));
    var links: seq<Site> := if g.epicIds.Some? then LinkSites(g.epicIds.value, EpicsOf(g.ref), true) else [];
    FaultsConcat(empty + inside, links, items, epics);
    FaultsConcat(empty, inside, items, epics);
    ItemsInOrder(g.itemIds, GroupItems(g.ref), items, epics);
    if g.epicIds.Some? {
      LinksInOrder(g.epicIds.value, EpicsOf(g.ref), true, items, epics);
    }
    if g.itemIds == [] {
      assert [] + empty == empty;
      FaultsSnoc([], EmptySite(g.ref), items, epics);
    }
  }

  lemma ChainInOrder(c: Chain, items: Catalogs, epics: Catalogs)
    ensures ChainIssues(c, items) == Faults(ChainSites(c), items, epics)
  {
    hide ItemIssues, ReferenceIssues, ItemSites, LinkSites, Faults;
    FaultsConcat(ItemSites(c.itemIds, ChainItems(c.ref)), LinkSites(c.blockedBy, BlockersOf(c.ref), false), items, epics);
    ItemsInOrder(c.itemIds, ChainItems(c.ref), items, epics);
    LinksInOrder(c.blockedBy, BlockersOf(c.ref), false, items, epics);
  }

  lemma {:induction false} GroupsSitesSnoc(groups: seq<Group>, g: Group)
    ensures GroupsSites(groups + [g]) == GroupsSites(groups) + GroupSites(g)
  {
    hide GroupSites;
    if groups == [] {
      assert [g][1..] == [] && GroupSites(g) + [] == GroupSites(g);
    } else {
      assert (groups + [g])[1..] == groups[1..] + [g];
      GroupsSitesSnoc(groups[1..], g);
    }
  }

  lemma {:induction false} ChainsSitesSnoc(chains: seq<Chain>, c: Chain)
    ensures ChainsSites(chains + [c]) == ChainsSites(chains) + ChainSites(c)
  {
    hide ChainSites;
    if chains == [] {
      assert [c][1..] == [] && ChainSites(c) + [] == ChainSites(c);
    } else {
      assert (chains + [c])[1..] == chains[1..] + [c];
      ChainsSitesSnoc(chains[1..], c);
    }
  }

  lemma {:induction false} GroupsInOrder(groups: seq<Group>, items: Catalogs, epics: Catalogs)
    ensures GroupsIssues(groups, items, epics) == Faults(GroupsSites(groups), items, epics)
  {
    hide GroupIssues, GroupSites;
    if groups != [] {
      var front, g := groups[..|groups| - 1], groups[|groups| - 1];
      assert groups == front + [g];
      GroupsInOrder(front, items, epics);
      GroupInOrder(g, items, epics);
      GroupsSitesSnoc(front, g);
      FaultsConcat(GroupsSites(front), GroupSites(g), items, epics);
    }
  }

  lemma {:induction false} ChainsInOrder(chains: seq<Chain>, items: Catalogs, epics: Catalogs)
    ensures ChainsIssues(chains, items) == Faults(ChainsSites(chains), items, epics)
  {
    hide ChainIssues, ChainSites;
    if chains != [] {
      var front, c := chains[..|chains| - 1], chains[|chains| - 1];
      assert chains == front + [c];
      ChainsInOrder(front, items, epics);
      ChainInOrder(c, items, epics);
      ChainsSitesSnoc(front, c);
      FaultsConcat(ChainsSites(front), ChainSites(c), items, epics);
    }
  }

  /** The issues are those of the places of the model, at most one each, in their order. */
  lemma IssuesInOrder(m: Model, items: Catalogs, epics: Catalogs)
    ensures Issues(m, items, epics) == Faults(Sites(m), items, epics)
  {
    hide LaneRefIssues, GroupsIssues, ChainsIssues, LaneSites, GroupsSites, ChainsSites, Faults;
    var a, b, c := LaneSites(m.activeWork, ActiveWork), LaneSites(m.readyCandidates, ReadyCandidates), LaneSites(m.nextSequence, NextSequence);
    var d, e := GroupsSites(m.groups), ChainsSites(m.chains);
    FaultsConcat(a + b + c + d, e, items, epics);
    FaultsConcat(a + b + c, d, items, epics);
    FaultsConcat(a + b, c, items, epics);
    FaultsConcat(a, b, items, epics);
    LaneInOrder(m.activeWork, ActiveWork, items, epics);
    LaneInOrder(m.readyCandidates, ReadyCandidates, items, epics);
    LaneInOrder(m.nextSequence, NextSequence, items, epics);
    GroupsInOrder(m.groups, items, epics);
    ChainsInOrder(m.chains, items, epics);
  }
}
