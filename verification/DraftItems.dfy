/** The item lists of draft plan units (draft-plan-unit-store.ts): removal of later
    duplicates, explicit reordering, and the item part of an update. */
module DraftItems {
  import opened Text

  datatype Origin = FromRecommendation | FromUser

  datatype Item = Item(itemId: string, origin: Origin)

  function Ids(items: seq<Item>): (ids: set<string>)
    ensures forall i :: 0 <= i < |items| ==> items[i].itemId in ids
  {
    set i | 0 <= i < |items| :: items[i].itemId
  }

  ghost predicate DistinctIds(items: seq<Item>) {
    forall i, j :: 0 <= i < j < |items| ==> items[i].itemId != items[j].itemId
  }

  lemma IdsSnoc(items: seq<Item>, item: Item)
    ensures Ids(items + [item]) == Ids(items) + {item.itemId}
  {
    var all := items + [item];
    forall id | id in Ids(items) + {item.itemId}
      ensures id in Ids(all)
    {
      if id in Ids(items) {
        var i :| 0 <= i < |items| && items[i].itemId == id;
        assert all[i].itemId == id;
      } else {
        assert all[|items|].itemId == id;
      }
    }
  }

  lemma IdsConcat(a: seq<Item>, b: seq<Item>)
    ensures Ids(a + b) == Ids(a) + Ids(b)
  {
    forall id | id in Ids(a) + Ids(b)
      ensures id in Ids(a + b)
    {
      if id in Ids(a) {
        var i :| 0 <= i < |a| && a[i].itemId == id;
        assert (a + b)[i].itemId == id;
      } else {
        var i :| 0 <= i < |b| && b[i].itemId == id;
        assert (a + b)[|a| + i].itemId == id;
      }
    }
  }

  // ---- First and last occurrences ----

  /** The first item with the id. */
  function First(items: seq<Item>, id: string): (item: Item)
    requires id in Ids(items)
    ensures item in items && item.itemId == id
    decreases |items|
  {
    if items[0].itemId == id then items[0]
    else
      IdsConcat([items[0]], items[1..]);
      assert items == [items[0]] + items[1..];
      First(items[1..], id)
  }

  /** The last item with the id: what a map built from the items holds. */
  function Last(items: seq<Item>, id: string): (item: Item)
    requires id in Ids(items)
    ensures item in items && item.itemId == id
    decreases |items|
  {
    if items[|items| - 1].itemId == id then items[|items| - 1]
    else
      IdsSnoc(items[..|items| - 1], items[|items| - 1]);
      assert items == items[..|items| - 1] + [items[|items| - 1]];
      Last(items[..|items| - 1], id)
  }

  lemma {:induction false} FirstConcat(a: seq<Item>, b: seq<Item>, id: string)
    requires id in Ids(a) + Ids(b)
    ensures id in Ids(a + b) && First(a + b, id) == if id in Ids(a) then First(a, id) else First(b, id)
    decreases |a|
  {
    IdsConcat(a, b);
    if a == [] {
      assert a + b == b;
    } else {
      assert (a + b)[1..] == a[1..] + b;
      assert a == [a[0]] + a[1..];
      IdsConcat([a[0]], a[1..]);
      if a[0].itemId != id {
        FirstConcat(a[1..], b, id);
      }
    }
  }

  lemma {:induction false} LastConcat(a: seq<Item>, b: seq<Item>, id: string)
    requires id in Ids(a) + Ids(b)
    ensures id in Ids(a + b) && Last(a + b, id) == if id in Ids(b) then Last(b, id) else Last(a, id)
    decreases |b|
  {
    IdsConcat(a, b);
    if b == [] {
      assert a + b == a;
    } else {
      var front, last := b[..|b| - 1], b[|b| - 1];
      assert (a + b)[..|a + b| - 1] == a + front;
      assert b == front + [last];
      IdsSnoc(front, last);
      if last.itemId != id {
        LastConcat(a, front, id);
      }
    }
  }

  /** In a list without duplicates every item is both. */
  lemma {:induction false} OnlyOccurrence(items: seq<Item>, i: nat)
    requires DistinctIds(items) && i < |items|
    ensures First(items, items[i].itemId) == Last(items, items[i].itemId) == items[i]
  {
    var id := items[i].itemId;
    assert First(items, id) in items && Last(items, id) in items;
  }

  // ---- Duplicates ----

  /** The items whose id did not occur before. */
  function Dedupe(items: seq<Item>): (result: seq<Item>) {
    if items == [] then []
    else
      var front, last := items[..|items| - 1], items[|items| - 1];
      if last.itemId in Ids(front) then Dedupe(front) else Dedupe(front) + [last]
  }

  lemma {:induction false} DedupeIds(items: seq<Item>)
    ensures DistinctIds(Dedupe(items)) && Ids(Dedupe(items)) == Ids(items)
  {
    hide Ids;
    if items != [] {
      var front, last := items[..|items| - 1], items[|items| - 1];
      assert items == front + [last];
      DedupeIds(front);
      IdsSnoc(front, last);
      IdsSnoc(Dedupe(front), last);
      if last.itemId !in Ids(front) {
        NewIdIsDistinct(Dedupe(front), last);
      }
    }
  }

  lemma NewIdIsDistinct(items: seq<Item>, item: Item)
    requires DistinctIds(items) && item.itemId !in Ids(items)
    ensures DistinctIds(items + [item])
  {
  }

  lemma {:induction false} DedupeFirst(items: seq<Item>)
    ensures forall item :: item in Dedupe(items) ==> item.itemId in Ids(items) && item == First(items, item.itemId)
  {
    hide Ids, First;
    if items != [] {
      var front, last := items[..|items| - 1], items[|items| - 1];
      assert items == front + [last];
      DedupeFirst(front);
      NoIds();
      IdsSnoc([], last);
      assert [] + [last] == [last];
      IdsSnoc(front, last);
      forall item | item in Dedupe(items)
        ensures item.itemId in Ids(items) && item == First(items, item.itemId)
      {
        FirstConcat(front, [last], item.itemId);
        assert First([last], last.itemId) in [last];
      }
    }
  }

  lemma DedupeKeepsFirst(items: seq<Item>)
    ensures DistinctIds(Dedupe(items)) && Ids(Dedupe(items)) == Ids(items)
    ensures forall item :: item in Dedupe(items) ==> item.itemId in Ids(items) && item == First(items, item.itemId)
  {
    hide Dedupe, Ids, First;
    DedupeIds(items);
    DedupeFirst(items);
  }

  lemma {:induction false} DedupeDistinct(items: seq<Item>)
    requires DistinctIds(items)
    ensures Dedupe(items) == items
  {
    if items != [] {
      DedupeDistinct(items[..|items| - 1]);
    }
  }

  /** Items already without duplicates stay in front. */
  lemma {:induction false} DedupeConcat(a: seq<Item>, b: seq<Item>)
    requires DistinctIds(a) && Ids(a) !! Ids(b)
    ensures Dedupe(a + b) == a + Dedupe(b)
    decreases |b|
  {
    if b == [] {
      assert a + b == a;
      DedupeDistinct(a);
    } else {
      var front, last := b[..|b| - 1], b[|b| - 1];
      assert b == front + [last] && (a + b)[..|a + b| - 1] == a + front;
      IdsSnoc(front, last);
      IdsConcat(a, front);
      DedupeConcat(a, front);
    }
  }

  // ---- Filters ----

  function Without(items: seq<Item>, ids: set<string>): (rest: seq<Item>)
    ensures forall item :: item in rest <==> item in items && item.itemId !in ids
  {
    if items == [] then []
    else
      var front, last := items[..|items| - 1], items[|items| - 1];
      if last.itemId in ids then Without(front, ids) else Without(front, ids) + [last]
  }

  function Only(items: seq<Item>, ids: set<string>): (rest: seq<Item>)
    ensures forall item :: item in rest <==> item in items && item.itemId in ids
  {
    if items == [] then []
    else
      var front, last := items[..|items| - 1], items[|items| - 1];
      if last.itemId in ids then Only(front, ids) + [last] else Only(front, ids)
  }

  lemma IdsOfFilters(items: seq<Item>, ids: set<string>)
    ensures Ids(Without(items, ids)) == Ids(items) - ids && Ids(Only(items, ids)) == Ids(items) * ids
  {
    hide Without, Only;
    forall id | id in Ids(items)
      ensures id !in ids ==> id in Ids(Without(items, ids))
      ensures id in ids ==> id in Ids(Only(items, ids))
    {
      var i :| 0 <= i < |items| && items[i].itemId == id;
      assert id !in ids ==> items[i] in Without(items, ids);
      assert id in ids ==> items[i] in Only(items, ids);
    }
  }

  lemma {:induction false} FiltersAreDistinct(items: seq<Item>, ids: set<string>)
    requires DistinctIds(items)
    ensures DistinctIds(Without(items, ids)) && DistinctIds(Only(items, ids))
  {
    if items != [] {
      FiltersAreDistinct(items[..|items| - 1], ids);
    }
  }

  /** Filtering out ids does not change the first and last item of another id. */
  lemma {:induction false} WithoutKeepsEnds(items: seq<Item>, ids: set<string>, id: string)
    requires id in Ids(items) && id !in ids
    ensures id in Ids(Without(items, ids))
    ensures First(Without(items, ids), id) == First(items, id) && Last(Without(items, ids), id) == Last(items, id)
  {
    IdsOfFilters(items, ids);
    var front, last := items[..|items| - 1], items[|items| - 1];
    assert items == front + [last];
    IdsSnoc(front, last);
    IdsOfFilters(front, ids);
    if id in Ids(front) {
      WithoutKeepsEnds(front, ids, id);
    }
    FirstConcat(front, [last], id);
    LastConcat(front, [last], id);
    if last.itemId !in ids {
      FirstConcat(Without(front, ids), [last], id);
      LastConcat(Without(front, ids), [last], id);
    }
  }

  // ---- Explicit order ----

  function Listed(order: seq<string>): set<string> {
    set i | 0 <= i < |order| :: order[i]
  }

  lemma ListedSnoc(order: seq<string>, id: string)
    ensures Listed(order + [id]) == Listed(order) + {id}
  {
    var all := order + [id];
    assert all[|order|] == id;
    assert forall i :: 0 <= i < |order| ==> all[i] == order[i];
  }

  /** The item of each listed id that is present, in list order. */
  function Picked(items: seq<Item>, order: seq<string>): (picked: seq<Item>) {
    if order == [] then []
    else
      var front, last := order[..|order| - 1], order[|order| - 1];
      if last in Ids(items) && last !in Listed(front) then Picked(items, front) + [Last(items, last)] else Picked(items, front)
  }

  /** The listed items first, then every item that was not listed. */
  function Reordered(items: seq<Item>, order: seq<string>): seq<Item> {
    Picked(items, order) + Without(items, Listed(order))
  }

  lemma {:induction false} PickedIds(items: seq<Item>, order: seq<string>)
    ensures Ids(Picked(items, order)) == Ids(items) * Listed(order) && DistinctIds(Picked(items, order))
    ensures forall item :: item in Picked(items, order) ==> item.itemId in Ids(items) && item == Last(items, item.itemId)
  {
    hide Ids, Last;
    if order == [] {
      assert Ids([]) == {} by {
        NoIds();
      }
    } else {
      var front, last := order[..|order| - 1], order[|order| - 1];
      PickedIds(items, front);
      assert order == front + [last];
      ListedSnoc(front, last);
      if last in Ids(items) && last !in Listed(front) {
        IdsSnoc(Picked(items, front), Last(items, last));
      }
    }
  }

  lemma NoIds()
    ensures Ids([]) == {}
  {
  }

  // ---- The item part of an update ----

  /** What an update does to a unit's items before duplicates are dropped. */
  function Candidates(items: seq<Item>, remove: seq<string>, add: seq<Item>): seq<Item> {
    var kept := Without(items, Listed(remove));
    kept + Without(add, Ids(kept))
  }

  function Updated(items: seq<Item>, remove: seq<string>, add: seq<Item>, order: Option<seq<string>>): seq<Item> {
    var all := Candidates(items, remove, add);
    Dedupe(if order.Some? then Reordered(all, order.value) else all)
  }

  /** After deduplication, a listed id has the last candidate with it, any other id the
      first: reordering goes through a map in which later items replace earlier ones. */
  lemma WhichOccurrence(items: seq<Item>, order: seq<string>, item: Item)
    requires item in Dedupe(Reordered(items, order))
    ensures item.itemId in Ids(items)
    ensures item == if item.itemId in Listed(order) then Last(items, item.itemId) else First(items, item.itemId)
  {
    hide Dedupe, Without, Picked, Ids, First, Last, Listed;
    var id := item.itemId;
    var picked, rest := Picked(items, order), Without(items, Listed(order));
    DedupeKeepsFirst(Reordered(items, order));
    InIds(Dedupe(Reordered(items, order)), item);
    PickedIds(items, order);
    IdsOfFilters(items, Listed(order));
    IdsConcat(picked, rest);
    FirstConcat(picked, rest, id);
    if id in Listed(order) {
      assert First(picked, id) in picked;
    } else {
      WithoutKeepsEnds(items, Listed(order), id);
    }
  }

  lemma InIds(items: seq<Item>, item: Item)
    requires item in items
    ensures item.itemId in Ids(items)
  {
  }

  /** An update leaves no duplicates; it drops exactly the removed ids and brings in
      exactly the added ones; and the explicitly ordered ids come first, in that order. */
  lemma UpdatedItems(items: seq<Item>, remove: seq<string>, add: seq<Item>, order: Option<seq<string>>)
    ensures DistinctIds(Updated(items, remove, add, order))
    ensures Ids(Updated(items, remove, add, order)) == Ids(items) - Listed(remove) + Ids(add)
    ensures order.Some? ==>
              var all := Candidates(items, remove, add);
              Updated(items, remove, add, order) == Picked(all, order.value) + Dedupe(Without(all, Listed(order.value)))
  {
    hide Dedupe, Without, Picked, Ids, Listed;
    var kept := Without(items, Listed(remove));
    var all := Candidates(items, remove, add);
    IdsOfFilters(items, Listed(remove));
    IdsOfFilters(add, Ids(kept));
    IdsConcat(kept, Without(add, Ids(kept)));
    DedupeKeepsFirst(all);
    if order.Some? {
      var picked, rest := Picked(all, order.value), Without(all, Listed(order.value));
      DedupeKeepsFirst(Reordered(all, order.value));
      PickedIds(all, order.value);
      IdsOfFilters(all, Listed(order.value));
      IdsConcat(picked, rest);
      DedupeConcat(picked, rest);
    }
  }

  /** An item the unit already had keeps its origin through every update. */
  lemma UpdateKeepsExistingItems(items: seq<Item>, remove: seq<string>, add: seq<Item>, order: Option<seq<string>>, i: nat)
    requires DistinctIds(items) && i < |items| && items[i].itemId !in Listed(remove)
    ensures items[i] in Updated(items, remove, add, order)
  {
    var id := items[i].itemId;
    var kept := Without(items, Listed(remove));
    var added := Without(add, Ids(kept));
    hide Dedupe, Without, Picked, Ids, First, Last, Listed;
    UpdatedItems(items, remove, add, order);
    InIds(items, items[i]);
    OnlyOccurrence(items, i);
    WithoutKeepsEnds(items, Listed(remove), id);
    IdsOfFilters(add, Ids(kept));
    FirstConcat(kept, added, id);
    LastConcat(kept, added, id);
    FindId(Updated(items, remove, add, order), id);
    var item :| item in Updated(items, remove, add, order) && item.itemId == id;
    OccurrenceInUpdate(items, remove, add, order, item);
  }

  lemma FindId(items: seq<Item>, id: string)
    requires id in Ids(items)
    ensures exists item :: item in items && item.itemId == id
  {
    var i :| 0 <= i < |items| && items[i].itemId == id;
    assert items[i] in items;
  }

  lemma OccurrenceInUpdate(items: seq<Item>, remove: seq<string>, add: seq<Item>, order: Option<seq<string>>, item: Item)
    requires item in Updated(items, remove, add, order)
    ensures var all := Candidates(items, remove, add);
            (item.itemId in Ids(all)
             && item == if order.Some? && item.itemId in Listed(order.value) then Last(all, item.itemId) else First(all, item.itemId))
  {
    hide Dedupe, Candidates, Reordered, Ids, First, Last, Listed;
    var all := Candidates(items, remove, add);
    if order.Some? {
      WhichOccurrence(all, order.value, item);
    } else {
      DedupeKeepsFirst(all);
      InIds(Dedupe(all), item);
    }
  }

  /** A newly added id keeps its first origin exactly when it is not explicitly ordered
      or its first and last added occurrences agree. */
  lemma AddedOrigin(items: seq<Item>, remove: seq<string>, add: seq<Item>, order: Option<seq<string>>, item: Item)
    requires item in Updated(items, remove, add, order) && item.itemId !in Ids(items) - Listed(remove)
    ensures item.itemId in Ids(add)
    ensures var id := item.itemId;
            (item == First(add, id) <==> (order.None? || id !in Listed(order.value) || First(add, id) == Last(add, id)))
  {
    var id := item.itemId;
    var kept := Without(items, Listed(remove));
    var added := Without(add, Ids(kept));
    hide Dedupe, Without, Reordered, Ids, First, Last, Listed;
    OccurrenceInUpdate(items, remove, add, order, item);
    IdsOfFilters(items, Listed(remove));
    IdsOfFilters(add, Ids(kept));
    IdsConcat(kept, added);
    FirstConcat(kept, added, id);
    LastConcat(kept, added, id);
    WithoutKeepsEnds(add, Ids(kept), id);
  }

  /** An added item whose id comes with one origin only is stored as it is given, in
      whatever order: this is all that the update action asks for, since it adds distinct
      ids, each of them as user-added. */
  lemma AddedItemIsStored(items: seq<Item>, remove: seq<string>, add: seq<Item>, order: Option<seq<string>>, i: nat)
    requires i < |add| && add[i].itemId !in Ids(items) - Listed(remove)
    requires forall j :: 0 <= j < |add| && add[j].itemId == add[i].itemId ==> add[j] == add[i]
    ensures add[i] in Updated(items, remove, add, order)
  {
    var id := add[i].itemId;
    InIds(add, add[i]);
    assert First(add, id) in add && Last(add, id) in add;
    hide Updated, Ids, First, Last, Listed;
    UpdatedItems(items, remove, add, order);
    FindId(Updated(items, remove, add, order), id);
    var item :| item in Updated(items, remove, add, order) && item.itemId == id;
    AddedOrigin(items, remove, add, order, item);
  }

  /** reorderItems reads items through a map in which later ones replace earlier ones, so
      an id that is added with two origins and listed in itemOrder is stored with the
      last, although dedupeItems by itself would keep the first. */
  lemma LaterOriginKept(id: string, first: Item, second: Item, order: seq<string>)
    requires first == Item(id, FromRecommendation) && second == Item(id, FromUser) && order == [id]
    ensures second in Updated([], [], [first, second], Some(order)) && first in Updated([], [], [first, second], None)
  {
    var add := [first, second];
    FirstAndLastOfTwo(first, second);
    hide Updated, Ids, First, Last, Listed;
    ChosenOrigin(add, id, Some(order));
    ChosenOrigin(add, id, None);
    var later :| later in Updated([], [], add, Some(order)) && later.itemId == id && later != first;
    TwoOrigins(later, second);
  }

  lemma TwoOrigins(item: Item, other: Item)
    requires item.itemId == other.itemId && item != Item(other.itemId, FromRecommendation) && other.origin.FromUser?
    ensures item == other
  {
    match item.origin
    case FromRecommendation =>
    case FromUser =>
  }

  lemma FirstAndLastOfTwo(first: Item, second: Item)
    requires first.itemId == second.itemId
    ensures first.itemId in Ids([first, second])
    ensures First([first, second], first.itemId) == first && Last([first, second], first.itemId) == second
    ensures first.itemId in Listed([first.itemId])
  {
    InIds([first, second], first);
    assert [first.itemId][0] == first.itemId;
  }

  lemma ChosenOrigin(add: seq<Item>, id: string, order: Option<seq<string>>)
    requires id in Ids(add)
    ensures exists item :: item in Updated([], [], add, order) && item.itemId == id
                           && (item == First(add, id) <==> (order.None? || id !in Listed(order.value) || First(add, id) == Last(add, id)))
  {
    hide Updated, Ids, First, Last;
    NoIds();
    UpdatedItems([], [], add, order);
    FindId(Updated([], [], add, order), id);
    var item :| item in Updated([], [], add, order) && item.itemId == id;
    AddedOrigin([], [], add, order, item);
  }

  // ---- The loops of the source ----

  method DedupeItems(items: seq<Item>) returns (result: seq<Item>)
    ensures result == Dedupe(items)
  {
    result := [];
    var seen: set<string> := {};
    NoIds();
    for i := 0 to |items|
      invariant result == Dedupe(items[..i]) && seen == Ids(items[..i])
    {
      assert items[..i + 1] == items[..i] + [items[i]];
      IdsSnoc(items[..i], items[i]);
      assert items[..i + 1][..i] == items[..i];
      if items[i].itemId in seen {
        continue;
      }
      seen := seen + {items[i].itemId};
      result := result + [items[i]];
    }
    assert items[..|items|] == items;
  }

  /** The map from ids to items: later items replace earlier ones. */
  method MapById(items: seq<Item>) returns (byId: map<string, Item>)
    ensures byId.Keys == Ids(items) && forall id :: id in byId ==> byId[id] == Last(items, id)
  {
    hide Ids, Last;
    byId := map[];
    NoIds();
    for i := 0 to |items|
      invariant byId.Keys == Ids(items[..i])
      invariant forall id :: id in byId ==> byId[id] == Last(items[..i], id)
    {
      assert items[..i + 1] == items[..i] + [items[i]];
      LastAfter(items[..i], items[i]);
      byId := byId[items[i].itemId := items[i]];
    }
    assert items[..|items|] == items;
  }

  lemma PickedSnoc(items: seq<Item>, order: seq<string>, id: string)
    ensures Picked(items, order + [id])
         == if id in Ids(items) && id !in Listed(order) then Picked(items, order) + [Last(items, id)] else Picked(items, order)
  {
    hide Ids, Listed, Last;
    assert (order + [id])[..|order|] == order;
  }

  lemma WithoutSnoc(items: seq<Item>, item: Item, ids: set<string>)
    ensures Without(items + [item], ids) == if item.itemId in ids then Without(items, ids) else Without(items, ids) + [item]
  {
    assert (items + [item])[..|items|] == items;
  }

  method ReorderItems(items: seq<Item>, order: seq<string>) returns (ordered: seq<Item>)
    ensures ordered == Reordered(items, order)
  {
    hide Ids, Last, Listed, Without;
    var byId := MapById(items);
    ordered := [];
    NothingListed();
    for k := 0 to |order|
      invariant ordered == Picked(items, order[..k])
      invariant byId.Keys == Ids(items) - Listed(order[..k])
      invariant forall id :: id in byId ==> byId[id] == Last(items, id)
    {
      assert order[..k + 1] == order[..k] + [order[k]];
      ListedSnoc(order[..k], order[k]);
      PickedSnoc(items, order[..k], order[k]);
      hide Picked;
      if order[k] in byId {
        ordered := ordered + [byId[order[k]]];
        byId := byId - {order[k]};
      }
    }
    assert order[..|order|] == order;
    var rest := Remaining(items, byId, Listed(order));
    ordered := ordered + rest;
  }

  /** The items whose id is still in the map. */
  method Remaining(items: seq<Item>, byId: map<string, Item>, ghost listed: set<string>) returns (rest: seq<Item>)
    requires byId.Keys == Ids(items) - listed
    ensures rest == Without(items, listed)
  {
    hide Ids, Without;
    rest := [];
    NothingWithout(listed);
    for i := 0 to |items|
      invariant rest == Without(items[..i], listed)
    {
      assert items[..i + 1] == items[..i] + [items[i]];
      WithoutSnoc(items[..i], items[i], listed);
      InIds(items, items[i]);
      if items[i].itemId in byId {
        rest := rest + [items[i]];
      }
    }
    assert items[..|items|] == items;
  }

  lemma NothingWithout(ids: set<string>)
    ensures Without([], ids) == []
  {
  }

  lemma LastAfter(items: seq<Item>, item: Item)
    ensures Ids(items + [item]) == Ids(items) + {item.itemId}
    ensures forall id :: id in Ids(items) + {item.itemId} ==> Last(items + [item], id) == if id == item.itemId then item else Last(items, id)
  {
    IdsSnoc(items, item);
    assert (items + [item])[..|items|] == items;
  }

  lemma NothingListed()
    ensures Listed([]) == {}
  {
  }
}
