/** What each operation of the draft plan unit store leaves in the stored index. */
module DraftUnitResults {
  import opened Text
  import opened Filters
  import opened StringOrder
  import opened DraftItems
  import opened DraftItemResults
  import opened DraftPlanUnits

  function HasOtherId(id: string): Unit -> bool {
    (u: Unit) => u.unitId != id
  }

  function IsOther(ids: seq<string>): Unit -> bool {
    (u: Unit) => u.unitId !in ids
  }

  ghost predicate HasUnit(units: seq<Unit>, id: string) {
    exists u :: u in units && u.unitId == id
  }

  /** Some unit holds the backlog item. */
  ghost predicate Holds(units: seq<Unit>, itemId: string) {
    exists u: Unit, item: Item :: u in units && item in u.items && item.itemId == itemId
  }

  // ---- The order of the stored index ----

  /** Most recently updated first, and by id among those updated at the same time. */
  ghost predicate NewestFirst(units: seq<Unit>) {
    forall i, j :: 0 <= i < j < |units| ==>
      if units[i].updatedAt == units[j].updatedAt then Ascends(units[i].unitId, units[j].unitId)
      else Ascends(units[j].updatedAt, units[i].updatedAt)
  }

  lemma OrderedIsNewestFirst(units: seq<Unit>)
    ensures NewestFirst(Ordered(units))
  {
    hide Ordered, LessEq, Ascends;
    OrderedIsInOrder(units);
    var r := Ordered(units);
    forall i, j | 0 <= i < j < |r|
      ensures if r[i].updatedAt == r[j].updatedAt then Ascends(r[i].unitId, r[j].unitId) else Ascends(r[j].updatedAt, r[i].updatedAt)
    {
      assert Before(r[i], r[j]);
      LessEqIsAscending(r[i].unitId, r[j].unitId);
      LessEqIsAscending(r[j].updatedAt, r[i].updatedAt);
    }
  }

  /** Whatever writes the index stores the most recently updated units first. */
  lemma StoresNewestFirst(op: Op, units: seq<Unit>)
    requires Apply(op, units).Some? && !(op.Delete? && !HasUnit(units, op.unitId))
    ensures NewestFirst(Apply(op, units).value)
  {
    hide Applied, Ordered, NewestFirst;
    if op.Delete? {
      var u :| u in units && u.unitId == op.unitId;
      InUnitIds(units, u);
    }
    OrderedIsNewestFirst(Applied(op, Ordered(units)).value);
  }

  // ---- Taking units out of the index ----

  lemma {:induction false} RemovedIsFilter(units: seq<Unit>, ids: set<string>, listed: seq<string>)
    requires forall id :: id in ids <==> id in listed
    ensures Removed(units, ids) == Filter(IsOther(listed), units)
  {
    if units != [] {
      var front, last := units[..|units| - 1], units[|units| - 1];
      assert units == front + [last];
      RemovedIsFilter(front, ids, listed);
      FilterConcat(IsOther(listed), front, [last]);
      FilterOne(IsOther(listed), last);
    }
  }

  lemma {:induction false} FilterOfOne(units: seq<Unit>, id: string)
    ensures Filter(IsOther([id]), units) == Filter(HasOtherId(id), units)
  {
    if units != [] {
      FilterOfOne(units[1..], id);
    }
  }

  lemma ReplacedCounts(units: seq<Unit>, u: Unit, unit: Unit)
    requires DistinctUnits(units) && u in units
    ensures multiset(Replaced(units, u.unitId, unit)) == multiset(Filter(HasOtherId(u.unitId), units)) + multiset{unit}
  {
    hide Filter;
    var k :| 0 <= k < |units| && units[k] == u;
    var a, b := units[..k], units[k + 1..];
    var other := HasOtherId(u.unitId);
    assert units == a + ([u] + b);
    assert Replaced(units, u.unitId, unit) == a + ([unit] + b);
    FilterConcat(other, a, [u] + b);
    FilterConcat(other, [u], b);
    FilterOne(other, u);
    FilterAll(other, a);
    FilterAll(other, b);
    assert Filter(other, units) == a + ([] + b);
    assert a + ([unit] + b) == a + [unit] + b;
  }

  /** Among the units of a valid index, the one that a call finds. */
  lemma FoundUnit(units: seq<Unit>, id: string) returns (u: Unit)
    requires FindUnit(Ordered(units), id).Some?
    ensures FindUnit(Ordered(units), id) == Some(u) && u in units && u in Ordered(units) && u.unitId == id
  {
    hide Ordered, FindUnit;
    u := FindUnit(Ordered(units), id).value;
    OrderedHolds(units, u);
  }

  lemma FindsIffHas(units: seq<Unit>, id: string)
    ensures FindUnit(Ordered(units), id).Some? <==> HasUnit(units, id)
  {
    hide Ordered, FindUnit;
    if FindUnit(Ordered(units), id).Some? {
      OrderedHolds(units, FindUnit(Ordered(units), id).value);
    }
    if HasUnit(units, id) {
      var u :| u in units && u.unitId == id;
      OrderedHolds(units, u);
      InUnitIds(Ordered(units), u);
    }
  }

  /** Putting one unit in place of another, and storing some more. */
  lemma ReplacedStores(units: seq<Unit>, u: Unit, unit: Unit, more: seq<Unit>)
    requires ValidIndex(units) && u in units
    ensures multiset(Ordered(Replaced(Ordered(units), u.unitId, unit) + more))
         == multiset(Filter(HasOtherId(u.unitId), units)) + multiset{unit} + multiset(more)
  {
    hide Ordered, Filter, Replaced, DistinctIds;
    OrderedIsValid(units);
    OrderedHolds(units, u);
    OrderedPermutes(units);
    OrderedPermutes(Replaced(Ordered(units), u.unitId, unit) + more);
    ReplacedCounts(Ordered(units), u, unit);
    FilterPermutes(HasOtherId(u.unitId), Ordered(units), units);
  }

  lemma RemovedStores(units: seq<Unit>, ids: set<string>, listed: seq<string>, more: seq<Unit>)
    requires forall id :: id in ids <==> id in listed
    ensures multiset(Ordered(Removed(Ordered(units), ids) + more)) == multiset(Filter(IsOther(listed), units)) + multiset(more)
  {
    hide Ordered, Filter, Removed;
    OrderedPermutes(units);
    OrderedPermutes(Removed(Ordered(units), ids) + more);
    RemovedIsFilter(Ordered(units), ids, listed);
    FilterPermutes(IsOther(listed), Ordered(units), units);
  }

  // ---- Creation and deletion ----

  /** A creation stores one draft unit beside those there are: everything as given, each
      item id once, as its first item has it. */
  lemma CreateStores(op: Op, units: seq<Unit>) returns (created: Unit)
    requires op.Create?
    ensures Apply(op, units).Some? && multiset(Apply(op, units).value) == multiset(units) + multiset{created}
    ensures created == Unit(op.newId, op.title, op.intent, op.provenance, op.sourceRecommendationRef, op.profile,
                            Firsts(ItemKey(), op.items), Draft, None, None, op.now, op.now)
  {
    hide Ordered, Dedupe, Firsts;
    created := Applied(op, Ordered(units)).value[|Ordered(units)|];
    DedupeIsFirsts(op.items);
    OrderedPermutes(units);
    OrderedPermutes(Ordered(units) + [created]);
  }

  /** A deletion never fails; it takes out the units with the id and nothing else. */
  lemma DeleteStores(op: Op, units: seq<Unit>)
    requires op.Delete?
    ensures Apply(op, units).Some?
    ensures multiset(Apply(op, units).value) == multiset(Filter(HasOtherId(op.unitId), units))
    ensures !HasUnit(units, op.unitId) ==> Apply(op, units).value == units
  {
    hide Ordered, Filter, Removed, UnitIds;
    FilterOfOne(units, op.unitId);
    RemovedStores(units, {op.unitId}, [op.unitId], []);
    assert Removed(Ordered(units), {op.unitId}) + [] == Removed(Ordered(units), {op.unitId});
    if op.unitId !in UnitIds(units) {
      forall u | u in units
        ensures HasOtherId(op.unitId)(u)
      {
        InUnitIds(units, u);
      }
      FilterAll(HasOtherId(op.unitId), units);
    } else {
      HasUnitWithId(units, op.unitId);
    }
  }

  lemma HasUnitWithId(units: seq<Unit>, id: string)
    requires id in UnitIds(units)
    ensures HasUnit(units, id)
  {
    var i :| 0 <= i < |units| && units[i].unitId == id;
    assert units[i] in units;
  }

  // ---- Updates and promotions ----

  /** An update or a promotion goes through exactly for a unit that exists. */
  lemma MutatesIff(op: Op, units: seq<Unit>)
    requires op.Update? || op.Promote?
    ensures Apply(op, units).Some? <==> HasUnit(units, op.unitId)
  {
    hide Ordered, FindUnit, Replaced, HasUnit, PatchedUnit;
    FindsIffHas(units, op.unitId);
  }

  /** An update puts one unit in the place of another: fields that the patch leaves out
      stay, an empty profile clears it, and the items are removed, added and ordered as
      the patch says. */
  lemma UpdateStores(op: Op, units: seq<Unit>) returns (was: Unit, changed: Unit)
    requires op.Update? && ValidIndex(units) && Apply(op, units).Some?
    ensures was in units && was.unitId == op.unitId
    ensures multiset(Apply(op, units).value) == multiset(Filter(HasOtherId(op.unitId), units)) + multiset{changed}
    ensures changed == Unit(op.unitId, changed.title, changed.intent, was.provenance, was.sourceRecommendationRef, changed.profile,
                            changed.items, was.status, was.promotedSession, was.promotedAt, was.createdAt, op.now)
    ensures changed.title == if op.patch.title == None then was.title else op.patch.title.value
    ensures changed.intent == if op.patch.intent == None then was.intent else op.patch.intent
    ensures changed.profile == if op.patch.profile == None then was.profile else if op.patch.profile == Some("") then None else op.patch.profile
    ensures ComesTo(was.items, op.patch.removeItemIds, op.patch.addItems, op.patch.itemOrder, changed.items)
  {
    hide Ordered, Filter, FindUnit, Replaced, DistinctIds, DraftItems.Updated, ComesTo;
    was := FoundUnit(units, op.unitId);
    changed := PatchedUnit(was, op.patch, op.now);
    UpdateComesTo(was.items, op.patch.removeItemIds, op.patch.addItems, op.patch.itemOrder);
    ReplacedStores(units, was, changed, []);
    assert Replaced(Ordered(units), op.unitId, changed) + [] == Replaced(Ordered(units), op.unitId, changed);
  }

  /** A promotion sets a unit's status, session and times and nothing else. */
  lemma PromoteStores(op: Op, units: seq<Unit>) returns (was: Unit)
    requires op.Promote? && ValidIndex(units) && Apply(op, units).Some?
    ensures was in units && was.unitId == op.unitId
    ensures multiset(Apply(op, units).value) == multiset(Filter(HasOtherId(op.unitId), units))
              + multiset{Unit(op.unitId, was.title, was.intent, was.provenance, was.sourceRecommendationRef, was.profile,
                              was.items, Promoted, Some(op.session), Some(op.now), was.createdAt, op.now)}
  {
    hide Ordered, Filter, FindUnit, Replaced, DistinctIds;
    was := FoundUnit(units, op.unitId);
    var changed := Unit(op.unitId, was.title, was.intent, was.provenance, was.sourceRecommendationRef, was.profile,
                        was.items, Promoted, Some(op.session), Some(op.now), was.createdAt, op.now);
    ReplacedStores(units, was, changed, []);
    assert Replaced(Ordered(units), op.unitId, changed) + [] == Replaced(Ordered(units), op.unitId, changed);
  }

  // ---- Merges ----

  function ItemLists(units: seq<Unit>): (lists: seq<seq<Item>>)
    ensures |lists| == |units|
  {
    seq(|units|, i requires 0 <= i < |units| => units[i].items)
  }

  lemma {:induction false} FlatIsJoined(units: seq<Unit>)
    ensures FlatItems(units) == Joined(ItemLists(units))
  {
    if units != [] {
      var front, last := units[..|units| - 1], units[|units| - 1];
      FlatIsJoined(front);
      JoinedSnoc(ItemLists(front), last.items);
      assert ItemLists(units) == ItemLists(front) + [last.items];
    }
  }

  lemma SourcesAre(units: seq<Unit>, unitIds: seq<string>) returns (sources: seq<Unit>)
    requires Sources(Ordered(units), unitIds).Some?
    ensures sources == Sources(Ordered(units), unitIds).value && |sources| == |unitIds|
    ensures forall k :: 0 <= k < |unitIds| ==> sources[k] in units && sources[k].unitId == unitIds[k] && sources[k].status == Draft
  {
    hide Ordered, FindUnit, Sources;
    sources := Sources(Ordered(units), unitIds).value;
    forall k | 0 <= k < |unitIds|
      ensures sources[k] in units && sources[k].unitId == unitIds[k] && sources[k].status == Draft
    {
      assert Some(sources[k]) == FindUnit(Ordered(units), unitIds[k]);
      OrderedHolds(units, sources[k]);
    }
  }

  /** A merge takes out the listed units and stores one draft unit of the user's in their
      place: title, intent and profile are the override or else the first listed unit's,
      the items those of the listed units one after the other, each id once, as its first
      item has it. */
  lemma MergeStores(op: Op, units: seq<Unit>) returns (sources: seq<Unit>, merged: Unit)
    requires op.Merge? && Apply(op, units).Some?
    ensures |sources| == |op.unitIds|
    ensures forall k :: 0 <= k < |sources| ==> sources[k] in units && sources[k].unitId == op.unitIds[k] && sources[k].status == Draft
    ensures multiset(Apply(op, units).value) == multiset(Filter(IsOther(op.unitIds), units)) + multiset{merged}
    ensures merged == Unit(op.newId, merged.title, merged.intent, UserMade, None, merged.profile,
                           Firsts(ItemKey(), Joined(ItemLists(sources))), Draft, None, None, op.now, op.now)
    ensures op.overrides.title.Some? ==> merged.title == op.overrides.title.value
    ensures op.overrides.title.None? ==> sources != [] && merged.title == sources[0].title
    ensures op.overrides.intent.Some? ==> merged.intent == op.overrides.intent
    ensures op.overrides.intent.None? ==> sources != [] && merged.intent == sources[0].intent
    ensures op.overrides.profile.Some? ==> merged.profile == op.overrides.profile
    ensures op.overrides.profile.None? ==> sources != [] && merged.profile == sources[0].profile
  {
    hide Ordered, Filter, Firsts, FindUnit, Removed, Dedupe, FlatItems, ItemLists, Joined, Sources;
    sources := SourcesAre(units, op.unitIds);
    merged := MergedUnit(op.newId, op.now, sources, op.overrides);
    FlatIsJoined(sources);
    DedupeIsFirsts(FlatItems(sources));
    RemovedStores(units, Listed(op.unitIds), op.unitIds, [merged]);
  }

  lemma HeldIffHolds(units: seq<Unit>, id: string)
    ensures id in HeldItems(units) <==> Holds(units, id)
  {
    hide Ids;
    if id in HeldItems(units) {
      var u :| u in units && id in Ids(u.items);
      FindId(u.items, id);
    }
    if Holds(units, id) {
      var u: Unit, item: Item :| u in units && item in u.items && item.itemId == id;
      InIds(u.items, item);
    }
  }

  lemma OrderedHoldsAll(units: seq<Unit>, id: string)
    ensures Holds(Ordered(units), id) <==> Holds(units, id)
  {
    hide Ordered;
    if Holds(units, id) {
      var u: Unit, item: Item :| u in units && item in u.items && item.itemId == id;
      OrderedHolds(units, u);
    }
    if Holds(Ordered(units), id) {
      var u: Unit, item: Item :| u in Ordered(units) && item in u.items && item.itemId == id;
      OrderedHolds(units, u);
    }
  }

  lemma HoldsTheSame(units: seq<Unit>, after: seq<Unit>)
    requires HeldItems(after) == HeldItems(Ordered(units))
    ensures forall id :: Holds(Ordered(after), id) <==> Holds(units, id)
  {
    hide Ordered, HeldItems, Holds;
    forall id
      ensures Holds(Ordered(after), id) <==> Holds(units, id)
    {
      OrderedHoldsAll(units, id);
      OrderedHoldsAll(after, id);
      HeldIffHolds(after, id);
      HeldIffHolds(Ordered(units), id);
    }
  }

  /** No item leaves the index when units of it are merged, and none comes in. */
  lemma MergeHoldsAll(op: Op, units: seq<Unit>)
    requires op.Merge? && ValidIndex(units) && !HasUnit(units, op.newId) && Apply(op, units).Some?
    ensures forall id :: Holds(Apply(op, units).value, id) <==> Holds(units, id)
  {
    hide Ordered, Removed, MergedUnit, Listed, ValidIndex, Holds, HeldItems, Sources, UnitIds, HasUnit;
    OrderedIsValid(units);
    if op.newId in UnitIds(units) {
      HasUnitWithId(units, op.newId);
    }
    var o := Ordered(units);
    var sources := Sources(o, op.unitIds).value;
    MergeConserves(op.newId, op.now, op.unitIds, op.overrides, o, sources, MergedUnit(op.newId, op.now, sources, op.overrides));
    HoldsTheSame(units, Applied(op, o).value);
  }

  // ---- Splits ----

  lemma SplitSource(op: Op, units: seq<Unit>) returns (source: Unit)
    requires op.Split? && Applied(op, Ordered(units)).Some?
    ensures source in units && source.unitId == op.unitId && source.status == Draft
    ensures FindUnit(Ordered(units), op.unitId) == Some(source)
    ensures Applied(op, Ordered(units)).value == Replaced(Ordered(units), op.unitId, Remainder(op, source)) + [SplitOff(op, source)]
    ensures Listed(op.splitItemIds) <= Ids(source.items) && Without(source.items, Listed(op.splitItemIds)) != []
  {
    hide Ordered, FindUnit, Replaced, Ids, Without, Listed, Remainder, SplitOff;
    source := FoundUnit(units, op.unitId);
  }

  /** A split leaves the unit its unlisted items, of which there are some, and stores one
      draft unit of the user's with the listed ones, all of which were there: it is empty
      exactly when none is listed. Title, intent and profile are as given. */
  lemma SplitStores(op: Op, units: seq<Unit>) returns (source: Unit, kept: Unit, created: Unit)
    requires op.Split? && ValidIndex(units) && Apply(op, units).Some?
    ensures source in units && source.unitId == op.unitId && source.status == Draft
    ensures multiset(Apply(op, units).value) == multiset(Filter(HasOtherId(op.unitId), units)) + multiset{kept} + multiset{created}
    ensures kept == Unit(op.unitId, source.title, source.intent, source.provenance, source.sourceRecommendationRef, source.profile,
                         Filter(IsUnlisted(op.splitItemIds), source.items), Draft, source.promotedSession, source.promotedAt, source.createdAt, op.now)
    ensures created == Unit(op.newId, op.splitTitle, op.splitIntent, UserMade, None, op.splitProfile,
                            Filter(IsListed(op.splitItemIds), source.items), Draft, None, None, op.now, op.now)
    ensures kept.items != [] && (created.items == [] <==> op.splitItemIds == [])
    ensures forall id :: id in op.splitItemIds ==> id in IdList(created.items)
  {
    hide Ordered, Applied, FindUnit, Replaced, Filter, Ids, Without, Only, DistinctIds, ValidIndex;
    source := SplitSource(op, units);
    var items, listed := source.items, op.splitItemIds;
    kept, created := Remainder(op, source), SplitOff(op, source);
    WithoutIsFilter(items, Listed(listed), listed);
    OnlyIsFilter(items, Listed(listed), listed);
    ReplacedStores(units, source, kept, [created]);
    SplitEmpty(items, listed);
    IdsOfFilters(items, Listed(listed));
    forall id | id in listed
      ensures id in IdList(created.items)
    {
      IdListIsIds(created.items, id);
    }
  }

  /** A split goes through exactly for a draft unit that holds every listed item and some
      other one. */
  lemma SplitStoresIff(op: Op, units: seq<Unit>)
    requires op.Split? && ValidIndex(units)
    ensures Apply(op, units).Some?
       <==> exists u :: u in units && u.unitId == op.unitId && u.status == Draft
                        && (forall id :: id in op.splitItemIds ==> id in IdList(u.items))
                        && exists item :: item in u.items && item.itemId !in op.splitItemIds
  {
    hide Ordered, FindUnit, Replaced, Ids, Remainder, SplitOff, Without, Applied, ValidIndex;
    if Apply(op, units).Some? {
      var source := SplitSource(op, units);
      var rest := Without(source.items, Listed(op.splitItemIds));
      assert rest[0] in rest;
      forall id | id in op.splitItemIds
        ensures id in IdList(source.items)
      {
        IdListIsIds(source.items, id);
      }
    }
    forall u, item | u in units && u.unitId == op.unitId && u.status == Draft
                     && (forall id :: id in op.splitItemIds ==> id in IdList(u.items)) && item in u.items && item.itemId !in op.splitItemIds
      ensures Apply(op, units).Some?
    {
      OnlyFound(units, u);
      forall id | id in Listed(op.splitItemIds)
        ensures id in Ids(u.items)
      {
        IdListIsIds(u.items, id);
      }
      assert item in Without(u.items, Listed(op.splitItemIds));
      SplitGoesThrough(op, Ordered(units), u);
    }
  }

  lemma SplitGoesThrough(op: Op, units: seq<Unit>, u: Unit)
    requires op.Split? && FindUnit(units, op.unitId) == Some(u) && u.status == Draft
    requires Listed(op.splitItemIds) <= Ids(u.items) && Without(u.items, Listed(op.splitItemIds)) != []
    ensures Applied(op, units).Some?
  {
    hide FindUnit, Replaced, Ids, Without, Listed, Remainder, SplitOff;
  }

  lemma OnlyFound(units: seq<Unit>, u: Unit)
    requires ValidIndex(units) && u in units
    ensures FindUnit(Ordered(units), u.unitId) == Some(u)
  {
    hide Ordered, FindUnit, DistinctIds, UnitIds;
    OrderedIsValid(units);
    OrderedHolds(units, u);
    InUnitIds(Ordered(units), u);
    SameUnit(Ordered(units), u, FindUnit(Ordered(units), u.unitId).value);
  }

  /** No item leaves the index when a unit of it is split, and none comes in. */
  lemma SplitHoldsAll(op: Op, units: seq<Unit>)
    requires op.Split? && ValidIndex(units) && Apply(op, units).Some?
    ensures forall id :: Holds(Apply(op, units).value, id) <==> Holds(units, id)
  {
    hide Ordered, Applied, ValidIndex, Holds, HeldItems, FindUnit, Replaced, Remainder, SplitOff, Ids, Listed, Without;
    OrderedIsValid(units);
    var source := SplitSource(op, units);
    SplitConserves(op, Ordered(units), source);
    HoldsTheSame(units, Applied(op, Ordered(units)).value);
  }
}
