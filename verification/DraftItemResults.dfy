/** What the item lists of draft plan units come to, by filters and first occurrences. */
module DraftItemResults {
  import opened Text
  import opened Filters
  import opened DraftItems

  function ItemKey(): Item -> string {
    (item: Item) => item.itemId
  }

  function Itself(): string -> string {
    (id: string) => id
  }

  function IsListed(ids: seq<string>): Item -> bool {
    (item: Item) => item.itemId in ids
  }

  function IsUnlisted(ids: seq<string>): Item -> bool {
    (item: Item) => item.itemId !in ids
  }

  function IsIdIn(ids: seq<string>): string -> bool {
    (id: string) => id in ids
  }

  function IdList(items: seq<Item>): (ids: seq<string>)
    ensures |ids| == |items|
  {
    seq(|items|, i requires 0 <= i < |items| => items[i].itemId)
  }

  ghost predicate IsLastWithItsId(items: seq<Item>, item: Item) {
    exists k :: 0 <= k < |items| && items[k] == item && forall j :: k < j < |items| ==> items[j].itemId != item.itemId
  }

  lemma IdListIsIds(items: seq<Item>, id: string)
    ensures id in IdList(items) <==> id in Ids(items)
  {
    if id in Ids(items) {
      var i :| 0 <= i < |items| && items[i].itemId == id;
      assert IdList(items)[i] == id;
    }
  }

  lemma {:induction false} WithoutIsFilter(items: seq<Item>, ids: set<string>, listed: seq<string>)
    requires forall id :: id in ids <==> id in listed
    ensures Without(items, ids) == Filter(IsUnlisted(listed), items)
  {
    if items != [] {
      var front, last := items[..|items| - 1], items[|items| - 1];
      assert items == front + [last];
      WithoutIsFilter(front, ids, listed);
      FilterConcat(IsUnlisted(listed), front, [last]);
      FilterOne(IsUnlisted(listed), last);
    }
  }

  lemma {:induction false} OnlyIsFilter(items: seq<Item>, ids: set<string>, listed: seq<string>)
    requires forall id :: id in ids <==> id in listed
    ensures Only(items, ids) == Filter(IsListed(listed), items)
  {
    if items != [] {
      var front, last := items[..|items| - 1], items[|items| - 1];
      assert items == front + [last];
      OnlyIsFilter(front, ids, listed);
      FilterConcat(IsListed(listed), front, [last]);
      FilterOne(IsListed(listed), last);
    }
  }

  /** dedupeItems keeps the first item with each id, in order. */
  lemma {:induction false} DedupeIsFirsts(items: seq<Item>)
    ensures Dedupe(items) == Firsts(ItemKey(), items)
  {
    if items != [] {
      var front, last := items[..|items| - 1], items[|items| - 1];
      assert items == front + [last];
      DedupeIsFirsts(front);
      assert HasKey(ItemKey(), front, last.itemId) <==> last.itemId in Ids(front);
      if last.itemId in Ids(front) {
        FirstsOld(ItemKey(), front, last);
      } else {
        FirstsNew(ItemKey(), front, last);
      }
    }
  }

  lemma {:induction false} LastIsLast(items: seq<Item>, id: string)
    requires id in Ids(items)
    ensures IsLastWithItsId(items, Last(items, id))
    decreases |items|
  {
    var front, last := items[..|items| - 1], items[|items| - 1];
    if last.itemId != id {
      IdsSnoc(front, last);
      assert items == front + [last];
      LastIsLast(front, id);
      var k :| 0 <= k < |front| && front[k] == Last(items, id) && forall j :: k < j < |front| ==> front[j].itemId != id;
      assert items[k] == Last(items, id);
    } else {
      assert items[|items| - 1] == Last(items, id);
    }
  }

  lemma {:induction false} PickedIdList(items: seq<Item>, order: seq<string>)
    ensures IdList(Picked(items, order)) == Firsts(Itself(), Filter(IsIdIn(IdList(items)), order))
  {
    hide Firsts, Filter, Ids, Last;
    var present := IsIdIn(IdList(items));
    if order == [] {
      NothingFirst(present);
    } else {
      var front, last := order[..|order| - 1], order[|order| - 1];
      assert order == front + [last];
      PickedIdList(items, front);
      IdListIsIds(items, last);
      PresentSnoc(present, front, last);
      assert last in Listed(front) <==> last in front;
    }
  }

  lemma NothingFirst(present: string -> bool)
    ensures Firsts(Itself(), Filter(present, [])) == []
  {
  }

  lemma PresentSnoc(present: string -> bool, front: seq<string>, last: string)
    ensures Firsts(Itself(), Filter(present, front + [last]))
         == Firsts(Itself(), Filter(present, front)) + if present(last) && last !in front then [last] else []
  {
    hide Firsts;
    FilterConcat(present, front, [last]);
    FilterOne(present, last);
    assert HasKey(Itself(), Filter(present, front), last) <==> last in Filter(present, front);
    if present(last) && last in front {
      FirstsOld(Itself(), Filter(present, front), last);
    } else if present(last) {
      FirstsNew(Itself(), Filter(present, front), last);
    } else {
      assert Filter(present, front) + [] == Filter(present, front);
    }
  }

  lemma PickedAreLast(items: seq<Item>, order: seq<string>, i: nat)
    requires i < |Picked(items, order)|
    ensures IsLastWithItsId(items, Picked(items, order)[i])
  {
    hide IsLastWithItsId, Picked, Ids, Last;
    PickedIds(items, order);
    LastIsLast(items, Picked(items, order)[i].itemId);
  }

  // ---- Main result ----

  /** Each listed id that is present, in the order of the first listings, with the last
      item that has it. */
  ghost predicate PickedInOrder(all: seq<Item>, order: seq<string>, picked: seq<Item>) {
    && IdList(picked) == Firsts(Itself(), Filter(IsIdIn(IdList(all)), order))
    && forall i :: 0 <= i < |picked| ==> IsLastWithItsId(all, picked[i])
  }

  /** The items that are not removed, then the added ones whose ids are new to them; of
      all these the listed ones first, and then the others, each the first one with its id. */
  ghost predicate ComesTo(items: seq<Item>, remove: seq<string>, add: seq<Item>, order: Option<seq<string>>, result: seq<Item>) {
    var kept := Filter(IsUnlisted(remove), items);
    var all := kept + Filter(IsUnlisted(IdList(kept)), add);
    if order.None? then result == Firsts(ItemKey(), all)
    else exists picked :: PickedInOrder(all, order.value, picked) && result == picked + Firsts(ItemKey(), Filter(IsUnlisted(order.value), all))
  }

  lemma CandidatesAre(items: seq<Item>, remove: seq<string>, add: seq<Item>)
    ensures Candidates(items, remove, add) == Filter(IsUnlisted(remove), items) + Filter(IsUnlisted(IdList(Filter(IsUnlisted(remove), items))), add)
  {
    hide Without, Filter, Ids;
    var kept := Without(items, Listed(remove));
    WithoutIsFilter(items, Listed(remove), remove);
    forall id
      ensures id in IdList(kept) <==> id in Ids(kept)
    {
      IdListIsIds(kept, id);
    }
    WithoutIsFilter(add, Ids(kept), IdList(kept));
  }

  lemma UpdateComesTo(items: seq<Item>, remove: seq<string>, add: seq<Item>, order: Option<seq<string>>)
    ensures ComesTo(items, remove, add, order, DraftItems.Updated(items, remove, add, order))
  {
    var all := Candidates(items, remove, add);
    UpdatedItems(items, remove, add, order);
    hide Without, Dedupe, Picked, Firsts, Filter, IsLastWithItsId, Ids, Candidates;
    CandidatesAre(items, remove, add);
    DedupeIsFirsts(all);
    if order.Some? {
      var picked := Picked(all, order.value);
      PickedIdList(all, order.value);
      forall i | 0 <= i < |picked|
        ensures IsLastWithItsId(all, picked[i])
      {
        PickedAreLast(all, order.value, i);
      }
      WithoutIsFilter(all, Listed(order.value), order.value);
      DedupeIsFirsts(Without(all, Listed(order.value)));
      assert PickedInOrder(all, order.value, picked);
    }
  }

  /** The lists of several units, one after the other. */
  function Joined(lists: seq<seq<Item>>): seq<Item> {
    if lists == [] then [] else lists[0] + Joined(lists[1..])
  }

  lemma {:induction false} JoinedSnoc(lists: seq<seq<Item>>, last: seq<Item>)
    ensures Joined(lists + [last]) == Joined(lists) + last
  {
    if lists == [] {
      assert [last][1..] == [];
      assert Joined([last]) == last + [];
    } else {
      assert (lists + [last])[1..] == lists[1..] + [last];
      JoinedSnoc(lists[1..], last);
      assert lists[0] + (Joined(lists[1..]) + last) == lists[0] + Joined(lists[1..]) + last;
    }
  }
}
