/** The draft plan unit index of draft-plan-unit-store.ts and its operations, and what
    every concurrent run of them keeps. */
module DraftPlanUnits {
  import opened Text
  import opened DraftItems
  import opened StringOrder

  datatype Status = Draft | Promoted

  datatype Provenance = Recommended | UserMade

  datatype Unit = Unit(
    unitId: string, title: string, intent: Option<string>, provenance: Provenance,
    sourceRecommendationRef: Option<string>, profile: Option<string>, items: seq<Item>, status: Status,
    promotedSession: Option<string>, promotedAt: Option<string>, createdAt: string, updatedAt: string)

  /** A missing field leaves the unit's value; an empty profile clears it. */
  datatype Patch = Patch(
    title: Option<string>, intent: Option<string>, profile: Option<string>,
    addItems: seq<Item>, removeItemIds: seq<string>, itemOrder: Option<seq<string>>)

  datatype Overrides = Overrides(title: Option<string>, intent: Option<string>, profile: Option<string>)

  /** The operations of the store, with the fresh id and time each call obtains. */
  datatype Op =
    | Create(newId: string, now: string, title: string, intent: Option<string>, provenance: Provenance,
             sourceRecommendationRef: Option<string>, profile: Option<string>, items: seq<Item>)
    | Update(unitId: string, now: string, patch: Patch)
    | Promote(unitId: string, now: string, session: string)
    | Delete(unitId: string)
    | Merge(newId: string, now: string, unitIds: seq<string>, overrides: Overrides)
    | Split(newId: string, now: string, unitId: string, splitItemIds: seq<string>, splitTitle: string,
            splitIntent: Option<string>, splitProfile: Option<string>)

  function NewIds(op: Op): set<string> {
    if op.Create? || op.Merge? || op.Split? then {op.newId} else {}
  }

  // ---- Indexes ----

  function UnitIds(units: seq<Unit>): (ids: set<string>) {
    set i | 0 <= i < |units| :: units[i].unitId
  }

  ghost predicate DistinctUnits(units: seq<Unit>) {
    forall i, j :: 0 <= i < j < |units| ==> units[i].unitId != units[j].unitId
  }

  ghost predicate ValidIndex(units: seq<Unit>) {
    DistinctUnits(units) && forall u :: u in units ==> DistinctIds(u.items)
  }

  /** Every backlog item some unit holds. */
  ghost function HeldItems(units: seq<Unit>): set<string> {
    set u, id | u in units && id in Ids(u.items) :: id
  }

  function FindUnit(units: seq<Unit>, unitId: string): (r: Option<Unit>)
    ensures r.Some? <==> unitId in UnitIds(units)
    ensures r.Some? ==> r.value in units && r.value.unitId == unitId
  {
    if units == [] then None
    else if units[0].unitId == unitId then
      assert units[0].unitId in UnitIds(units);
      Some(units[0])
    else
      UnitIdsCons(units);
      FindUnit(units[1..], unitId)
  }

  lemma UnitIdsCons(units: seq<Unit>)
    requires units != []
    ensures UnitIds(units) == {units[0].unitId} + UnitIds(units[1..])
  {
    assert forall i :: 0 < i < |units| ==> units[i] == units[1..][i - 1];
    forall id | id in UnitIds(units[1..])
      ensures id in UnitIds(units)
    {
      var i :| 0 <= i < |units| - 1 && units[1..][i].unitId == id;
      assert units[i + 1].unitId == id;
    }
  }

  function Replaced(units: seq<Unit>, unitId: string, unit: Unit): seq<Unit> {
    seq(|units|, i requires 0 <= i < |units| => if units[i].unitId == unitId then unit else units[i])
  }

  function Removed(units: seq<Unit>, ids: set<string>): (rest: seq<Unit>)
    ensures forall u :: u in rest <==> u in units && u.unitId !in ids
  {
    if units == [] then []
    else
      var front, last := units[..|units| - 1], units[|units| - 1];
      if last.unitId in ids then Removed(front, ids) else Removed(front, ids) + [last]
  }

  lemma {:induction false} RemovedIsDistinct(units: seq<Unit>, ids: set<string>)
    requires DistinctUnits(units)
    ensures DistinctUnits(Removed(units, ids))
  {
    if units != [] {
      var front := units[..|units| - 1];
      RemovedIsDistinct(front, ids);
      assert forall u :: u in Removed(front, ids) ==> u in front;
    }
  }

  lemma AppendIsDistinct(units: seq<Unit>, unit: Unit)
    requires DistinctUnits(units) && unit.unitId !in UnitIds(units)
    ensures DistinctUnits(units + [unit])
  {
  }

  // ---- Index order ----

  /** compareUnits: most recently updated first, then by id. */
  predicate Before(a: Unit, b: Unit) {
    if a.updatedAt != b.updatedAt then LessEq(b.updatedAt, a.updatedAt) else LessEq(a.unitId, b.unitId)
  }

  function Place(unit: Unit, ordered: seq<Unit>): seq<Unit> {
    if ordered == [] || Before(unit, ordered[0]) then [unit] + ordered
    else [ordered[0]] + Place(unit, ordered[1..])
  }

  function Ordered(units: seq<Unit>): (r: seq<Unit>) {
    if units == [] then [] else Place(units[0], Ordered(units[1..]))
  }

  lemma {:induction false} PlacePermutes(unit: Unit, ordered: seq<Unit>)
    ensures multiset(Place(unit, ordered)) == multiset(ordered) + multiset{unit}
  {
    hide Before;
    if ordered != [] {
      PlacePermutes(unit, ordered[1..]);
      assert ordered == [ordered[0]] + ordered[1..];
    }
  }

  lemma {:induction false} OrderedPermutes(units: seq<Unit>)
    ensures multiset(Ordered(units)) == multiset(units)
  {
    hide Place;
    if units != [] {
      OrderedPermutes(units[1..]);
      PlacePermutes(units[0], Ordered(units[1..]));
      assert units == [units[0]] + units[1..];
    }
  }

  lemma OrderedHolds(units: seq<Unit>, u: Unit)
    ensures u in Ordered(units) <==> u in units
  {
    OrderedPermutes(units);
    assert u in multiset(Ordered(units)) <==> u in multiset(units);
  }

  lemma OrderedIds(units: seq<Unit>)
    ensures UnitIds(Ordered(units)) == UnitIds(units)
  {
    forall id
      ensures id in UnitIds(Ordered(units)) <==> id in UnitIds(units)
    {
      if id in UnitIds(units) {
        var i :| 0 <= i < |units| && units[i].unitId == id;
        OrderedHolds(units, units[i]);
      }
      if id in UnitIds(Ordered(units)) {
        var i :| 0 <= i < |Ordered(units)| && Ordered(units)[i].unitId == id;
        OrderedHolds(units, Ordered(units)[i]);
      }
    }
  }

  lemma {:induction false} PlaceIsDistinct(unit: Unit, ordered: seq<Unit>)
    requires DistinctUnits(ordered) && forall u :: u in ordered ==> u.unitId != unit.unitId
    ensures DistinctUnits(Place(unit, ordered))
  {
    hide Before;
    if ordered != [] {
      PlaceIsDistinct(unit, ordered[1..]);
      PlacePermutes(unit, ordered[1..]);
      var rest := Place(unit, ordered[1..]);
      forall j | 0 <= j < |rest|
        ensures rest[j].unitId != ordered[0].unitId
      {
        assert rest[j] in multiset(rest);
        assert rest[j] == unit || rest[j] in ordered[1..];
      }
    }
  }

  lemma {:induction false} OrderedIsDistinct(units: seq<Unit>)
    requires DistinctUnits(units)
    ensures DistinctUnits(Ordered(units))
  {
    hide Place;
    if units != [] {
      OrderedIsDistinct(units[1..]);
      forall u | u in Ordered(units[1..])
        ensures u.unitId != units[0].unitId
      {
        OrderedHolds(units[1..], u);
      }
      PlaceIsDistinct(units[0], Ordered(units[1..]));
    }
  }

  lemma BeforeIsTotal(a: Unit, b: Unit)
    ensures Before(a, b) || Before(b, a)
  {
    hide LessEq;
    Total(a.updatedAt, b.updatedAt);
    Total(a.unitId, b.unitId);
  }

  lemma BeforeIsTransitive(a: Unit, b: Unit, c: Unit)
    requires Before(a, b) && Before(b, c)
    ensures Before(a, c)
  {
    hide LessEq;
    if a.updatedAt == b.updatedAt == c.updatedAt {
      Transitive(a.unitId, b.unitId, c.unitId);
    } else if a.updatedAt == c.updatedAt {
      Antisymmetric(a.updatedAt, b.updatedAt);
    } else if a.updatedAt != b.updatedAt && b.updatedAt != c.updatedAt {
      Transitive(c.updatedAt, b.updatedAt, a.updatedAt);
    }
  }

  ghost predicate InOrder(units: seq<Unit>) {
    forall i, j :: 0 <= i < j < |units| ==> Before(units[i], units[j])
  }

  lemma {:induction false} PlaceIsInOrder(unit: Unit, ordered: seq<Unit>)
    requires InOrder(ordered)
    ensures InOrder(Place(unit, ordered))
  {
    hide Before;
    if ordered == [] {
    } else if Before(unit, ordered[0]) {
      forall j | 0 < j < |ordered|
        ensures Before(unit, ordered[j])
      {
        BeforeIsTransitive(unit, ordered[0], ordered[j]);
      }
    } else {
      BeforeIsTotal(unit, ordered[0]);
      PlaceIsInOrder(unit, ordered[1..]);
      PlacePermutes(unit, ordered[1..]);
      var rest := Place(unit, ordered[1..]);
      forall j | 0 <= j < |rest|
        ensures Before(ordered[0], rest[j])
      {
        assert rest[j] in multiset(rest);
        assert rest[j] == unit || rest[j] in ordered[1..];
      }
    }
  }

  lemma {:induction false} OrderedIsInOrder(units: seq<Unit>)
    ensures InOrder(Ordered(units))
  {
    hide Before, Place;
    if units != [] {
      OrderedIsInOrder(units[1..]);
      PlaceIsInOrder(units[0], Ordered(units[1..]));
    }
  }

  // ---- Operations ----

  function PatchedUnit(u: Unit, patch: Patch, now: string): Unit {
    u.(title := if patch.title.Some? then patch.title.value else u.title,
       intent := if patch.intent.Some? then patch.intent else u.intent,
       profile := if patch.profile.None? then u.profile else if patch.profile.value == "" then None else patch.profile,
       items := DraftItems.Updated(u.items, patch.removeItemIds, patch.addItems, patch.itemOrder),
       updatedAt := now)
  }

  /** The units to merge, in the order listed; None when one is missing or promoted. */
  function Sources(units: seq<Unit>, unitIds: seq<string>): (r: Option<seq<Unit>>)
    ensures r.Some? <==> forall k :: 0 <= k < |unitIds| ==> FindUnit(units, unitIds[k]).Some? && FindUnit(units, unitIds[k]).value.status.Draft?
    ensures r.Some? ==> |r.value| == |unitIds| && forall k :: 0 <= k < |unitIds| ==> Some(r.value[k]) == FindUnit(units, unitIds[k])
  {
    if unitIds == [] then Some([])
    else
      var rest := Sources(units, unitIds[..|unitIds| - 1]);
      var u := FindUnit(units, unitIds[|unitIds| - 1]);
      if rest.None? || u.None? || u.value.status.Promoted? then None else Some(rest.value + [u.value])
  }

  function FlatItems(units: seq<Unit>): seq<Item> {
    if units == [] then [] else FlatItems(units[..|units| - 1]) + units[|units| - 1].items
  }

  function Fallback(value: Option<string>, units: seq<Unit>, field: Unit -> Option<string>): Option<string> {
    if value.Some? || units == [] then value else field(units[0])
  }

  function MergedUnit(newId: string, now: string, sources: seq<Unit>, o: Overrides): Unit
    requires sources != [] || o.title.Some?
  {
    Unit(newId, if o.title.Some? then o.title.value else sources[0].title, Fallback(o.intent, sources, (u: Unit) => u.intent), UserMade,
         None, Fallback(o.profile, sources, (u: Unit) => u.profile), Dedupe(FlatItems(sources)), Draft, None, None, now, now)
  }

  function SplitOff(op: Op, source: Unit): Unit
    requires op.Split?
  {
    Unit(op.newId, op.splitTitle, op.splitIntent, UserMade, None, op.splitProfile, Only(source.items, Listed(op.splitItemIds)), Draft, None, None, op.now, op.now)
  }

  function Remainder(op: Op, source: Unit): Unit
    requires op.Split?
  {
    source.(items := Without(source.items, Listed(op.splitItemIds)), updatedAt := op.now)
  }

  /** The units an operation leaves, before they are put in order; None when it throws. */
  function Applied(op: Op, units: seq<Unit>): (r: Option<seq<Unit>>) {
    match op
    case Create(newId, now, title, intent, provenance, ref, profile, items) =>
      Some(units + [Unit(newId, title, intent, provenance, ref, profile, Dedupe(items), Draft, None, None, now, now)])
    case Update(unitId, now, patch) =>
      var u := FindUnit(units, unitId);
      if u.None? then None else Some(Replaced(units, unitId, PatchedUnit(u.value, patch, now)))
    case Promote(unitId, now, session) =>
      var u := FindUnit(units, unitId);
      if u.None? then None
      else Some(Replaced(units, unitId, u.value.(status := Promoted, promotedSession := Some(session), promotedAt := Some(now), updatedAt := now)))
    case Delete(unitId) => Some(Removed(units, {unitId}))
    case Merge(newId, now, unitIds, o) =>
      var sources := Sources(units, unitIds);
      if sources.None? then None
      else if sources.value == [] && (o.profile.None? || o.intent.None? || o.title.None?) then None
      else Some(Removed(units, Listed(unitIds)) + [MergedUnit(newId, now, sources.value, o)])
    case Split(newId, now, unitId, splitItemIds, _, _, _) =>
      var u := FindUnit(units, unitId);
      if u.None? || u.value.status.Promoted? then None
      else if !(Listed(splitItemIds) <= Ids(u.value.items)) then None
      else if Without(u.value.items, Listed(splitItemIds)) == [] then None
      else Some(Replaced(units, unitId, Remainder(op, u.value)) + [SplitOff(op, u.value)])
  }

  /** One operation on a stored index: read in order, apply, write in order. Deleting an
      id that no unit has writes nothing. */
  function Apply(op: Op, units: seq<Unit>): (r: Option<seq<Unit>>) {
    if op.Delete? && op.unitId !in UnitIds(units) then Some(units)
    else
      var result := Applied(op, Ordered(units));
      if result.None? then None else Some(Ordered(result.value))
  }

  // ---- What one operation keeps ----

  lemma ReplacedIsValid(units: seq<Unit>, unitId: string, unit: Unit)
    requires ValidIndex(units) && unit.unitId == unitId && DistinctIds(unit.items)
    ensures ValidIndex(Replaced(units, unitId, unit)) && UnitIds(Replaced(units, unitId, unit)) == UnitIds(units)
  {
    var r := Replaced(units, unitId, unit);
    assert forall i :: 0 <= i < |units| ==> r[i].unitId == units[i].unitId;
    assert forall u :: u in r ==> u == unit || u in units;
    forall id | id in UnitIds(units)
      ensures id in UnitIds(r)
    {
      var i :| 0 <= i < |units| && units[i].unitId == id;
      assert r[i].unitId == id;
    }
  }

  lemma AppendedIsValid(units: seq<Unit>, unit: Unit)
    requires ValidIndex(units) && unit.unitId !in UnitIds(units) && DistinctIds(unit.items)
    ensures ValidIndex(units + [unit]) && UnitIds(units + [unit]) == UnitIds(units) + {unit.unitId}
  {
    AppendIsDistinct(units, unit);
    var r := units + [unit];
    assert r[|units|] == unit;
    assert forall i :: 0 <= i < |units| ==> r[i] == units[i];
  }

  lemma RemovedIsValid(units: seq<Unit>, ids: set<string>)
    requires ValidIndex(units)
    ensures ValidIndex(Removed(units, ids)) && UnitIds(Removed(units, ids)) == UnitIds(units) - ids
  {
    RemovedIsDistinct(units, ids);
    hide Removed;
    var r := Removed(units, ids);
    forall id | id in UnitIds(units) && id !in ids
      ensures id in UnitIds(r)
    {
      var i :| 0 <= i < |units| && units[i].unitId == id;
      assert units[i] in r;
    }
  }

  lemma AppliedKeepsValid(op: Op, units: seq<Unit>)
    requires ValidIndex(units) && NewIds(op) !! UnitIds(units) && Applied(op, units).Some?
    ensures ValidIndex(Applied(op, units).value) && UnitIds(Applied(op, units).value) <= UnitIds(units) + NewIds(op)
  {
    hide Dedupe, UnitIds, ValidIndex, DistinctIds, Removed, Replaced, Sources, FlatItems, Ids, Without, Only, DraftItems.Updated, FindUnit;
    match op
    case Create(_, _, _, _, _, _, _, items) =>
      DedupeIds(items);
      AppendedIsValid(units, Applied(op, units).value[|units|]);
    case Update(unitId, now, patch) =>
      var u := FindUnit(units, unitId).value;
      UpdatedItems(u.items, patch.removeItemIds, patch.addItems, patch.itemOrder);
      ReplacedIsValid(units, unitId, PatchedUnit(u, patch, now));
    case Promote(unitId, now, session) =>
      var u := FindUnit(units, unitId).value;
      UnitsHaveDistinctItems(units, u);
      ReplacedIsValid(units, unitId, u.(status := Promoted, promotedSession := Some(session), promotedAt := Some(now), updatedAt := now));
    case Delete(unitId) => RemovedIsValid(units, {unitId});
    case Merge(newId, now, unitIds, o) =>
      var sources := Sources(units, unitIds).value;
      DedupeIds(FlatItems(sources));
      RemovedIsValid(units, Listed(unitIds));
      AppendedIsValid(Removed(units, Listed(unitIds)), MergedUnit(newId, now, sources, o));
    case Split(_, _, unitId, splitItemIds, _, _, _) =>
      var u := FindUnit(units, unitId).value;
      UnitsHaveDistinctItems(units, u);
      FiltersAreDistinct(u.items, Listed(splitItemIds));
      ReplacedIsValid(units, unitId, Remainder(op, u));
      AppendedIsValid(Replaced(units, unitId, Remainder(op, u)), SplitOff(op, u));
  }

  lemma UnitsHaveDistinctItems(units: seq<Unit>, u: Unit)
    requires ValidIndex(units) && u in units
    ensures DistinctIds(u.items)
  {
  }

  lemma OrderedIsValid(units: seq<Unit>)
    requires ValidIndex(units)
    ensures ValidIndex(Ordered(units)) && UnitIds(Ordered(units)) == UnitIds(units)
  {
    hide Ordered;
    OrderedIsDistinct(units);
    OrderedIds(units);
    forall u | u in Ordered(units)
      ensures DistinctIds(u.items)
    {
      OrderedHolds(units, u);
    }
  }

  /** With a fresh id, every operation that does not throw keeps unit ids unique and
      every unit's items free of duplicates, stores the index in order unless it writes
      nothing, and adds no unit id but the fresh one. */
  lemma ApplyKeepsValid(op: Op, units: seq<Unit>)
    requires ValidIndex(units) && NewIds(op) !! UnitIds(units) && Apply(op, units).Some?
    ensures ValidIndex(Apply(op, units).value)
    ensures (op.Delete? && op.unitId !in UnitIds(units) && Apply(op, units).value == units) || InOrder(Apply(op, units).value)
    ensures UnitIds(Apply(op, units).value) <= UnitIds(units) + NewIds(op)
  {
    hide Applied, Ordered, ValidIndex, InOrder, UnitIds, NewIds;
    if op.Delete? && op.unitId !in UnitIds(units) {
      return;
    }
    OrderedIsValid(units);
    AppliedKeepsValid(op, Ordered(units));
    OrderedIsValid(Applied(op, Ordered(units)).value);
    OrderedIsInOrder(Applied(op, Ordered(units)).value);
  }

  // ---- Merge and split lose nothing ----

  lemma {:induction false} FlatItemsAre(units: seq<Unit>, item: Item)
    ensures item in FlatItems(units) <==> exists k :: 0 <= k < |units| && item in units[k].items
  {
    if units != [] {
      var front := units[..|units| - 1];
      FlatItemsAre(front, item);
      assert forall k :: 0 <= k < |front| ==> front[k] == units[k];
    }
  }

  /** The first item with an id comes from the first unit that has the id. */
  lemma {:induction false} FlatItemsFirst(units: seq<Unit>, id: string)
    requires id in Ids(FlatItems(units))
    ensures exists k :: 0 <= k < |units| && id in Ids(units[k].items) && First(FlatItems(units), id) == First(units[k].items, id)
                        && forall j :: 0 <= j < k ==> id !in Ids(units[j].items)
  {
    hide Ids, First;
    NoIds();
    var front, last := units[..|units| - 1], units[|units| - 1];
    IdsConcat(FlatItems(front), last.items);
    FirstConcat(FlatItems(front), last.items, id);
    if id in Ids(FlatItems(front)) {
      FlatItemsFirst(front, id);
      var k :| 0 <= k < |front| && id in Ids(front[k].items) && First(FlatItems(front), id) == First(front[k].items, id)
               && forall j :: 0 <= j < k ==> id !in Ids(front[j].items);
      assert units[k] == front[k] && forall j :: 0 <= j < k ==> units[j] == front[j];
    } else {
      forall j | 0 <= j < |front|
        ensures id !in Ids(units[j].items)
      {
        if id in Ids(units[j].items) {
          FindId(units[j].items, id);
          var item :| item in units[j].items && item.itemId == id;
          assert front[j] == units[j];
          FlatItemsAre(front, item);
          InIds(FlatItems(front), item);
        }
      }
      assert units[|units| - 1] == last;
    }
  }

  ghost predicate HasDraft(units: seq<Unit>, id: string) {
    exists u :: u in units && u.unitId == id && u.status.Draft?
  }

  /** Among distinct units, the one that is found in the ordered index is the one there is. */
  lemma FoundIsTheUnit(units: seq<Unit>, id: string)
    requires DistinctUnits(units)
    ensures FindUnit(Ordered(units), id).Some? && FindUnit(Ordered(units), id).value.status.Draft?
       <==> HasDraft(units, id)
  {
    hide Ordered, UnitIds;
    var found := FindUnit(Ordered(units), id);
    if found.Some? {
      OrderedHolds(units, found.value);
    }
    forall u | u in units && u.unitId == id
      ensures found == Some(u)
    {
      OrderedHolds(units, u);
      InUnitIds(Ordered(units), u);
    }
  }

  lemma InUnitIds(units: seq<Unit>, u: Unit)
    requires u in units
    ensures u.unitId in UnitIds(units)
  {
  }

  /** A merge of a stored index goes through exactly when each listed id is that of a
      draft unit in it, and an empty list comes with a title, an intent and a profile. */
  lemma MergeSucceedsIff(newId: string, now: string, unitIds: seq<string>, o: Overrides, units: seq<Unit>)
    requires DistinctUnits(units)
    ensures Apply(Merge(newId, now, unitIds, o), units).Some?
       <==> (&& (forall id :: id in unitIds ==> HasDraft(units, id))
             && (unitIds != [] || (o.title.Some? && o.intent.Some? && o.profile.Some?)))
  {
    hide FindUnit, Removed, MergedUnit, Listed, Ordered, DistinctUnits, HasDraft;
    forall k | 0 <= k < |unitIds|
      ensures FindUnit(Ordered(units), unitIds[k]).Some? && FindUnit(Ordered(units), unitIds[k]).value.status.Draft?
         <==> HasDraft(units, unitIds[k])
    {
      FoundIsTheUnit(units, unitIds[k]);
    }
    assert (forall id :: id in unitIds ==> HasDraft(units, id)) <==> Sources(Ordered(units), unitIds).Some? by {
      assert forall k :: 0 <= k < |unitIds| ==> unitIds[k] in unitIds;
    }
  }

  /** A merge replaces the listed units by one: its items are the union of theirs, each
      as the first listed unit that has it holds it, and no item leaves the index. */
  lemma MergeConserves(newId: string, now: string, unitIds: seq<string>, o: Overrides, units: seq<Unit>, sources: seq<Unit>, merged: Unit)
    requires ValidIndex(units) && newId !in UnitIds(units) && Applied(Merge(newId, now, unitIds, o), units).Some?
    requires Some(sources) == Sources(units, unitIds) && merged == MergedUnit(newId, now, sources, o)
    ensures forall u :: u in Applied(Merge(newId, now, unitIds, o), units).value <==> u == merged || (u in units && u.unitId !in Listed(unitIds))
    ensures forall id :: id in Ids(merged.items) ==>
              exists k :: 0 <= k < |sources| && id in Ids(sources[k].items) && First(sources[k].items, id) in merged.items
                          && forall j :: 0 <= j < k ==> id !in Ids(sources[j].items)
    ensures HeldItems(Applied(Merge(newId, now, unitIds, o), units).value) == HeldItems(units)
  {
    var after := Applied(Merge(newId, now, unitIds, o), units).value;
    assert after == Removed(units, Listed(unitIds)) + [merged];
    hide FindUnit, Removed, Listed, Ids, Dedupe, First, FlatItems, UnitIds, ValidIndex, Applied, HeldItems;
    MergedItems(sources, merged);
    forall u | u in units && u.unitId in Listed(unitIds)
      ensures u in sources
    {
      ListedUnit(units, unitIds, u);
    }
    hide Sources;
    MergeHolds(units, after, sources, merged, Listed(unitIds));
  }

  lemma MergedItems(sources: seq<Unit>, merged: Unit)
    requires merged.items == Dedupe(FlatItems(sources))
    ensures Ids(merged.items) == Ids(FlatItems(sources))
    ensures forall id :: id in Ids(merged.items) ==>
              exists k :: 0 <= k < |sources| && id in Ids(sources[k].items) && First(sources[k].items, id) in merged.items
                          && forall j :: 0 <= j < k ==> id !in Ids(sources[j].items)
  {
    hide Ids, Dedupe, First, FlatItems;
    DedupeKeepsFirst(FlatItems(sources));
    forall id | id in Ids(merged.items)
      ensures exists k :: 0 <= k < |sources| && id in Ids(sources[k].items) && First(sources[k].items, id) in merged.items
                          && forall j :: 0 <= j < k ==> id !in Ids(sources[j].items)
    {
      FindId(merged.items, id);
      FlatItemsFirst(sources, id);
    }
  }

  lemma ListedUnit(units: seq<Unit>, unitIds: seq<string>, u: Unit)
    requires ValidIndex(units) && u in units && u.unitId in Listed(unitIds) && Sources(units, unitIds).Some?
    ensures u in Sources(units, unitIds).value
  {
    hide Sources, Ids, FindUnit;
    var k :| 0 <= k < |unitIds| && unitIds[k] == u.unitId;
    var found := FindUnit(units, unitIds[k]).value;
    assert found == u;
    assert Sources(units, unitIds).value[k] == u;
  }

  lemma MergeHolds(units: seq<Unit>, after: seq<Unit>, sources: seq<Unit>, merged: Unit, ids: set<string>)
    requires forall u :: u in after <==> u == merged || (u in units && u.unitId !in ids)
    requires forall u :: u in units && u.unitId in ids ==> u in sources
    requires forall u :: u in sources ==> u in units
    requires Ids(merged.items) == Ids(FlatItems(sources))
    ensures HeldItems(after) == HeldItems(units)
  {
    hide Ids, FlatItems;
    forall id
      ensures id in HeldItems(after) <==> id in HeldItems(units)
    {
      if id in HeldItems(units) {
        var u :| u in units && id in Ids(u.items);
        if u.unitId in ids {
          FindId(u.items, id);
          var item :| item in u.items && item.itemId == id;
          var k :| 0 <= k < |sources| && sources[k] == u;
          FlatItemsAre(sources, item);
          InIds(FlatItems(sources), item);
          assert merged in after;
        } else {
          assert u in after;
        }
      }
      if id in HeldItems(after) {
        var u :| u in after && id in Ids(u.items);
        if u == merged {
          FindId(FlatItems(sources), id);
          var item :| item in FlatItems(sources) && item.itemId == id;
          FlatItemsAre(sources, item);
          var k :| 0 <= k < |sources| && item in sources[k].items;
          InIds(sources[k].items, item);
          assert sources[k] in sources;
        }
      }
    }
  }

  lemma {:induction false} FiltersPartition(items: seq<Item>, ids: set<string>)
    ensures multiset(Only(items, ids)) + multiset(Without(items, ids)) == multiset(items)
  {
    if items != [] {
      FiltersPartition(items[..|items| - 1], ids);
      assert items == items[..|items| - 1] + [items[|items| - 1]];
    }
  }

  lemma ReplacedHolds(units: seq<Unit>, unitId: string, unit: Unit)
    requires unitId in UnitIds(units)
    ensures forall u :: u in Replaced(units, unitId, unit) <==> u == unit || (u in units && u.unitId != unitId)
  {
    var r := Replaced(units, unitId, unit);
    var k :| 0 <= k < |units| && units[k].unitId == unitId;
    assert r[k] == unit;
    forall u | u in units && u.unitId != unitId
      ensures u in r
    {
      var i :| 0 <= i < |units| && units[i] == u;
      assert r[i] == u;
    }
  }

  /** A split divides the unit's items between the remainder, which keeps at least one,
      and the new unit, which gets exactly the listed ones; the rest of the index is
      untouched. The new unit is empty exactly when nothing was listed. */
  lemma SplitConserves(op: Op, units: seq<Unit>, source: Unit)
    requires op.Split? && ValidIndex(units) && Applied(op, units).Some? && FindUnit(units, op.unitId) == Some(source)
    ensures var kept, created := Remainder(op, source), SplitOff(op, source);
            (&& multiset(kept.items) + multiset(created.items) == multiset(source.items)
             && kept.items != [] && Ids(created.items) == Listed(op.splitItemIds)
             && (created.items == [] <==> op.splitItemIds == [])
             && (forall u :: u in Applied(op, units).value <==> u == kept || u == created || (u in units && u.unitId != op.unitId)))
    ensures HeldItems(Applied(op, units).value) == HeldItems(units)
  {
    var listed := Listed(op.splitItemIds);
    var kept, created := Remainder(op, source), SplitOff(op, source);
    FiltersPartition(source.items, listed);
    IdsOfFilters(source.items, listed);
    ReplacedHolds(units, op.unitId, kept);
    SplitEmpty(source.items, op.splitItemIds);
    hide Ids, Listed, Only, Without, FindUnit, ValidIndex, UnitIds, Replaced, HeldItems;
    var after := Applied(op, units).value;
    assert after == Replaced(units, op.unitId, kept) + [created];
    hide Applied;
    assert ValidIndex(units);
    forall u | u in units && u.unitId == op.unitId
      ensures u == source
    {
      SameUnit(units, u, source);
    }
    SplitHolds(units, after, source, kept, created);
  }

  lemma SameUnit(units: seq<Unit>, u: Unit, v: Unit)
    requires ValidIndex(units) && u in units && v in units && u.unitId == v.unitId
    ensures u == v
  {
  }

  lemma SplitEmpty(items: seq<Item>, ids: seq<string>)
    requires Listed(ids) <= Ids(items)
    ensures Only(items, Listed(ids)) == [] <==> ids == []
  {
    hide Only, Ids;
    IdsOfFilters(items, Listed(ids));
    NoIds();
    if ids != [] {
      assert ids[0] in Listed(ids);
      assert ids[0] in Ids(Only(items, Listed(ids)));
    } else if Only(items, Listed(ids)) != [] {
      InIds(Only(items, Listed(ids)), Only(items, Listed(ids))[0]);
    }
  }

  lemma SplitHolds(units: seq<Unit>, after: seq<Unit>, source: Unit, kept: Unit, created: Unit)
    requires forall u :: u in after <==> u == kept || u == created || (u in units && u.unitId != source.unitId)
    requires source in units && forall u :: u in units && u.unitId == source.unitId ==> u == source
    requires Ids(kept.items) + Ids(created.items) == Ids(source.items)
    ensures HeldItems(after) == HeldItems(units)
  {
    hide Ids;
    forall id
      ensures id in HeldItems(after) <==> id in HeldItems(units)
    {
      if id in HeldItems(units) {
        var u :| u in units && id in Ids(u.items);
        assert kept in after && created in after;
        if u != source {
          assert u in after;
        }
      }
      if id in HeldItems(after) {
        var u :| u in after && id in Ids(u.items);
        assert u in units || id in Ids(source.items);
      }
    }
  }
}
