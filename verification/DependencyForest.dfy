/** The order in which sortItemsDependencyBeforeDependent emits items: the post-order of
    the forest that a depth-first search enters from the ids in ascending order, following
    each depends_on list from left to right. */
module DependencyForest {
  import opened StringOrder
  import opened DependencySort

  /** An id, and what is first entered from its dependencies. */
  datatype Tree = Node(id: string, kids: seq<Tree>)

  function Entered(forest: seq<Tree>): set<string>
    decreases forest
  {
    if forest == [] then {} else {forest[0].id} + Entered(forest[0].kids) + Entered(forest[1..])
  }

  function PostOrder(forest: seq<Tree>): seq<string>
    decreases forest
  {
    if forest == [] then [] else PostOrder(forest[0].kids) + [forest[0].id] + PostOrder(forest[1..])
  }

  /** The ids are taken from left to right; one that is unknown or was entered before is
      passed over, any other one is entered, and its dependencies before the next id. */
  ghost predicate Explores(g: Graph, ids: seq<string>, before: set<string>, forest: seq<Tree>)
    decreases forest, |ids|
  {
    if ids == [] then forest == []
    else if ids[0] !in g || ids[0] in before then Explores(g, ids[1..], before, forest)
    else
      && forest != [] && forest[0].id == ids[0]
      && Explores(g, g[ids[0]].dependsOn, before + {ids[0]}, forest[0].kids)
      && Explores(g, ids[1..], before + {ids[0]} + Entered(forest[0].kids), forest[1..])
  }

  function IdsOf(items: seq<Item>): (ids: seq<string>)
    ensures |ids| == |items|
  {
    seq(|items|, i requires 0 <= i < |items| => items[i].id)
  }

  lemma IdsOfConcat(a: seq<Item>, b: seq<Item>)
    ensures IdsOf(a + b) == IdsOf(a) + IdsOf(b)
  {
  }

  // ---- Forests side by side ----

  lemma {:induction false} EnteredConcat(a: seq<Tree>, b: seq<Tree>)
    ensures Entered(a + b) == Entered(a) + Entered(b) && PostOrder(a + b) == PostOrder(a) + PostOrder(b)
  {
    if a == [] {
      assert a + b == b;
    } else {
      assert (a + b)[1..] == a[1..] + b;
      EnteredConcat(a[1..], b);
      assert PostOrder(a[0].kids) + [a[0].id] + (PostOrder(a[1..]) + PostOrder(b)) == PostOrder(a[0].kids) + [a[0].id] + PostOrder(a[1..]) + PostOrder(b);
    }
  }

  lemma {:induction false} ExploresConcat(g: Graph, ids: seq<string>, more: seq<string>, before: set<string>, a: seq<Tree>, b: seq<Tree>)
    requires Explores(g, ids, before, a) && Explores(g, more, before + Entered(a), b)
    ensures Explores(g, ids + more, before, a + b)
    decreases |ids|
  {
    if ids == [] {
      assert ids + more == more && a + b == b && before + Entered(a) == before;
    } else {
      assert (ids + more)[1..] == ids[1..] + more;
      if ids[0] !in g || ids[0] in before {
        ExploresConcat(g, ids[1..], more, before, a, b);
      } else {
        assert (a + b)[1..] == a[1..] + b;
        var next := before + {ids[0]} + Entered(a[0].kids);
        assert next + Entered(a[1..]) == before + Entered(a);
        ExploresConcat(g, ids[1..], more, next, a[1..], b);
      }
    }
  }

  // ---- The search enters such a forest ----

  /** What a part of the search adds is the forest that it enters. */
  ghost predicate Adds(g: Graph, ids: seq<string>, s: Search, r: Search, forest: seq<Tree>) {
    && Explores(g, ids, s.visiting + s.visited, forest)
    && r.visited == s.visited + Entered(forest) && IdsOf(r.result) == IdsOf(s.result) + PostOrder(forest)
  }

  lemma AddsNothing(g: Graph, ids: seq<string>, s: Search)
    requires ids == [] || (|ids| == 1 && (ids[0] !in g || ids[0] in s.visiting + s.visited))
    ensures Adds(g, ids, s, s, [])
  {
    assert ids != [] ==> ids[1..] == [];
    assert IdsOf(s.result) + [] == IdsOf(s.result);
  }

  lemma AddsOne(g: Graph, id: string, s: Search, t: Search, kids: seq<Tree>)
    requires id in g && g[id].id == id && id !in s.visiting + s.visited
    requires Adds(g, g[id].dependsOn, Search(s.visiting + {id}, s.visited, s.result), t, kids)
    ensures Adds(g, [id], s, Search(s.visiting, t.visited + {id}, t.result + [g[id]]), [Node(id, kids)])
  {
    var forest := [Node(id, kids)];
    assert forest[1..] == [] && [id][1..] == [];
    assert s.visiting + {id} + s.visited == s.visiting + s.visited + {id};
    IdsOfConcat(t.result, [g[id]]);
    assert IdsOf([g[id]]) == [id];
    assert PostOrder(forest) == PostOrder(kids) + [id];
    assert IdsOf(s.result) + PostOrder(kids) + [id] == IdsOf(s.result) + (PostOrder(kids) + [id]);
  }

  lemma AddsBoth(g: Graph, ids: seq<string>, more: seq<string>, s: Search, t: Search, r: Search, a: seq<Tree>, b: seq<Tree>)
    requires Adds(g, ids, s, t, a) && Adds(g, more, t, r, b) && t.visiting == s.visiting
    ensures Adds(g, ids + more, s, r, a + b)
  {
    hide Explores;
    assert t.visiting + t.visited == s.visiting + s.visited + Entered(a);
    ExploresConcat(g, ids, more, s.visiting + s.visited, a, b);
    EnteredConcat(a, b);
    assert IdsOf(s.result) + PostOrder(a) + PostOrder(b) == IdsOf(s.result) + (PostOrder(a) + PostOrder(b));
  }

  ghost predicate NamedByKey(g: Graph) {
    forall id :: id in g ==> g[id].id == id
  }

  lemma {:induction false} VisitAdds(g: Graph, id: string, s: Search) returns (forest: seq<Tree>)
    requires NamedByKey(g) && id in g && s.visiting <= g.Keys
    ensures Adds(g, [id], s, Visit(g, id, s), forest)
    decreases |g.Keys - s.visiting|, 0
  {
    hide Adds;
    if id in s.visited || id in s.visiting {
      forest := [];
      AddsNothing(g, [id], s);
    } else {
      FewerLeft(g.Keys - (s.visiting + {id}), g.Keys - s.visiting);
      var inside := Search(s.visiting + {id}, s.visited, s.result);
      var kids := VisitAllAdds(g, g[id].dependsOn, inside);
      var t := VisitAll(g, g[id].dependsOn, inside);
      forest := [Node(id, kids)];
      AddsOne(g, id, s, t, kids);
      assert t.visiting - {id} == s.visiting;
    }
  }

  lemma {:induction false} VisitAllAdds(g: Graph, ids: seq<string>, s: Search) returns (forest: seq<Tree>)
    requires NamedByKey(g) && s.visiting <= g.Keys
    ensures Adds(g, ids, s, VisitAll(g, ids, s), forest)
    decreases |g.Keys - s.visiting|, |ids| + 1
  {
    hide Adds;
    forest := [];
    if ids == [] {
      AddsNothing(g, ids, s);
    } else {
      var front, id := ids[..|ids| - 1], ids[|ids| - 1];
      assert ids == front + [id];
      var a := VisitAllAdds(g, front, s);
      var t := VisitAll(g, front, s);
      var b: seq<Tree> := [];
      if id in g {
        b := VisitAdds(g, id, t);
      } else {
        AddsNothing(g, [id], t);
      }
      AddsBoth(g, front, [id], s, t, VisitAll(g, ids, s), a, b);
      forest := a + b;
    }
  }

  // ---- Main results ----

  /** All ids of the map, each once, in ascending order. */
  ghost predicate AscendingIds(g: Graph, ids: seq<string>) {
    && (forall id :: id in ids <==> id in g)
    && (forall i, j :: 0 <= i < j < |ids| ==> ids[i] != ids[j] && Ascends(ids[i], ids[j]))
  }

  lemma RootsAscend(items: seq<Item>)
    ensures AscendingIds(ById(items), Sort(Keys(items)))
  {
    hide Ascends, Sort, Keys, ById;
    SortAscends(Keys(items));
    SortedKeys(items);
    KeysAreIds(items);
    assert Distinct(Keys(items));
    SortKeepsDistinct(Keys(items));
  }

  /** The emitted ids are the post-order of the forest that the depth-first search enters
      from all ids in ascending order. */
  lemma SortIsPostOrder(items: seq<Item>) returns (roots: seq<string>, forest: seq<Tree>)
    ensures AscendingIds(ById(items), roots) && Explores(ById(items), roots, {}, forest)
    ensures IdsOf(SortItems(items)) == PostOrder(forest)
  {
    hide Explores, AscendingIds, Sort, Keys, ById, PostOrder, Entered;
    roots := Sort(Keys(items));
    RootsAscend(items);
    forest := VisitAllAdds(ById(items), roots, NOTHING);
    assert NOTHING.visiting + NOTHING.visited == {};
    assert IdsOf(NOTHING.result) + PostOrder(forest) == PostOrder(forest);
  }

  lemma {:induction false} NothingToEnter(g: Graph, ids: seq<string>, before: set<string>, forest: seq<Tree>)
    requires Explores(g, ids, before, forest) && forall id :: id in ids ==> id !in g
    ensures forest == []
    decreases |ids|
  {
    if ids != [] {
      NothingToEnter(g, ids[1..], before, forest);
    }
  }

  lemma {:induction false} FlatForest(g: Graph, ids: seq<string>, before: set<string>, forest: seq<Tree>)
    requires Explores(g, ids, before, forest) && forall id, d :: id in g && d in g[id].dependsOn ==> d !in g
    requires (forall id :: id in ids ==> id in g && id !in before) && (forall i, j :: 0 <= i < j < |ids| ==> ids[i] != ids[j])
    ensures PostOrder(forest) == ids
    decreases |ids|
  {
    if ids != [] {
      NothingToEnter(g, g[ids[0]].dependsOn, before + {ids[0]}, forest[0].kids);
      FlatForest(g, ids[1..], before + {ids[0]} + Entered(forest[0].kids), forest[1..]);
      assert ids == [ids[0]] + ids[1..];
    }
  }

  /** When no dependency is among the items, their ids come out in ascending order. */
  lemma IndependentItemsAscend(items: seq<Item>, i: nat, j: nat)
    requires forall id, d :: id in ById(items) && d in ById(items)[id].dependsOn ==> d !in ById(items)
    requires i < j < |SortItems(items)|
    ensures Ascends(SortItems(items)[i].id, SortItems(items)[j].id)
  {
    hide Ascends, Explores, SortItems, ById;
    var roots, forest := SortIsPostOrder(items);
    FlatForest(ById(items), roots, {}, forest);
    assert IdsOf(SortItems(items))[i] == roots[i] && IdsOf(SortItems(items))[j] == roots[j];
  }
}
