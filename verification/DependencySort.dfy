/** sortItemsDependencyBeforeDependent of backlog-domain.ts: a depth-first search over
    an arbitrary dependency graph, cycles and unknown dependencies included. */
module DependencySort {
  import opened StringOrder
  import opened Reachability

  datatype Item = Item(id: string, dependsOn: seq<string>, title: string)

  type Graph = map<string, Item>

  /** new Map(items.map(...)): the last item with an id wins. */
  function ById(items: seq<Item>): (g: Graph)
    ensures forall id :: id in g ==> g[id].id == id
  {
    if items == [] then map[]
    else ById(items[..|items| - 1])[items[|items| - 1].id := items[|items| - 1]]
  }

  /** The keys of that map, in insertion order. */
  function Keys(items: seq<Item>): seq<string> {
    if items == [] then []
    else
      var front, id := Keys(items[..|items| - 1]), items[|items| - 1].id;
      if id in ById(items[..|items| - 1]) then front else front + [id]
  }

  // ---- The search ----

  datatype Search = Search(visiting: set<string>, visited: set<string>, result: seq<Item>)

  function Visit(g: Graph, id: string, s: Search): (r: Search)
    requires id in g && s.visiting <= g.Keys
    ensures r.visiting == s.visiting
    decreases |g.Keys - s.visiting|, 0
  {
    if id in s.visited || id in s.visiting then s
    else
      assert g.Keys - (s.visiting + {id}) < g.Keys - s.visiting;
      FewerLeft(g.Keys - (s.visiting + {id}), g.Keys - s.visiting);
      var t := VisitAll(g, g[id].dependsOn, Search(s.visiting + {id}, s.visited, s.result));
      Search(t.visiting - {id}, t.visited + {id}, t.result + [g[id]])
  }

  function VisitAll(g: Graph, ids: seq<string>, s: Search): (r: Search)
    requires s.visiting <= g.Keys
    ensures r.visiting == s.visiting
    decreases |g.Keys - s.visiting|, |ids| + 1
  {
    if ids == [] then s
    else
      var t := VisitAll(g, ids[..|ids| - 1], s);
      var id := ids[|ids| - 1];
      if id in g then Visit(g, id, t) else t
  }

  lemma FewerLeft(a: set<string>, b: set<string>)
    requires a < b
    ensures |a| < |b|
  {
    var rest := b - a;
    assert b == a + rest && |rest| > 0;
  }

  const NOTHING := Search({}, {}, [])

  function SortItems(items: seq<Item>): seq<Item> {
    VisitAll(ById(items), Sort(Keys(items)), NOTHING).result
  }

  // ---- Edges ----

  /** From an item to a dependency that is in the map. */
  function Depends(g: Graph): (string, string) -> bool {
    (a, b) => a in g && b in g && b in g[a].dependsOn
  }

  // ---- The invariant of the search ----

  ghost predicate Emitted(result: seq<Item>, id: string) {
    exists i :: 0 <= i < |result| && result[i].id == id
  }

  /** The results are the visited items, each once, and every present dependency of an
      emitted item was emitted before it or leads back to it. */
  ghost predicate Inv(g: Graph, s: Search) {
    && s.visiting <= g.Keys && s.visited <= g.Keys && s.visiting !! s.visited
    && (forall id :: id in g ==> g[id].id == id)
    && (forall i :: 0 <= i < |s.result| ==> s.result[i].id in s.visited && s.result[i] == g[s.result[i].id])
    && (forall i, j :: 0 <= i < j < |s.result| ==> s.result[i].id != s.result[j].id)
    && (forall id :: id in s.visited ==> Emitted(s.result, id))
    && (forall i, d :: 0 <= i < |s.result| && d in s.result[i].dependsOn && d in g ==>
          Emitted(s.result[..i], d) || Reaches(Depends(g), d, s.result[i].id))
  }

  ghost predicate AllReach(g: Graph, from: set<string>, id: string) {
    forall u :: u in from ==> Reaches(Depends(g), u, id)
  }

  lemma EmittedBefore(result: seq<Item>, more: seq<Item>, id: string)
    ensures Emitted(result, id) ==> Emitted(result + more, id)
    ensures Emitted(result + more, id) <==> Emitted(result, id) || Emitted(more, id)
  {
    if Emitted(result, id) {
      var i :| 0 <= i < |result| && result[i].id == id;
      assert (result + more)[i].id == id;
    }
    if Emitted(more, id) {
      var i :| 0 <= i < |more| && more[i].id == id;
      assert (result + more)[|result| + i].id == id;
    }
  }

  /** Emitting an item whose present dependencies are all visited or being visited. */
  lemma EmitKeepsInv(g: Graph, id: string, t: Search)
    requires Inv(g, t) && id in t.visiting && AllReach(g, t.visiting, id)
    requires forall d :: d in g[id].dependsOn && d in g ==> d in t.visited || d in t.visiting
    ensures Inv(g, Search(t.visiting - {id}, t.visited + {id}, t.result + [g[id]]))
  {
    hide Reaches;
    var after := t.result + [g[id]];
    forall v | v in t.visited + {id}
      ensures Emitted(after, v)
    {
      EmittedBefore(t.result, [g[id]], v);
      assert v == id ==> after[|t.result|].id == v;
    }
    forall i, d | 0 <= i < |after| && d in after[i].dependsOn && d in g
      ensures Emitted(after[..i], d) || Reaches(Depends(g), d, after[i].id)
    {
      if i < |t.result| {
        assert after[..i] == t.result[..i];
      } else {
        assert after[..i] == t.result;
      }
    }
  }

  lemma {:induction false} VisitKeepsInv(g: Graph, id: string, s: Search)
    requires id in g && Inv(g, s) && AllReach(g, s.visiting, id)
    ensures var r := Visit(g, id, s); Inv(g, r) && s.visited <= r.visited && (id in r.visited || id in r.visiting)
    decreases |g.Keys - s.visiting|, 0
  {
    hide Reaches, Emitted;
    if id !in s.visited && id !in s.visiting {
      FewerLeft(g.Keys - (s.visiting + {id}), g.Keys - s.visiting);
      var t := Search(s.visiting + {id}, s.visited, s.result);
      ReachesSelf(Depends(g), id);
      VisitAllKeepsInv(g, id, g[id].dependsOn, t);
      EmitKeepsInv(g, id, VisitAll(g, g[id].dependsOn, t));
    }
  }

  lemma {:induction false} VisitAllKeepsInv(g: Graph, owner: string, ids: seq<string>, s: Search)
    requires Inv(g, s) && owner in s.visiting && AllReach(g, s.visiting, owner)
    requires forall d :: d in ids ==> d in g[owner].dependsOn
    ensures var r := VisitAll(g, ids, s);
            && Inv(g, r) && s.visited <= r.visited
            && forall d :: d in ids && d in g ==> d in r.visited || d in r.visiting
    decreases |g.Keys - s.visiting|, |ids| + 1
  {
    hide Reaches, Emitted;
    if ids != [] {
      var front, id := ids[..|ids| - 1], ids[|ids| - 1];
      VisitAllKeepsInv(g, owner, front, s);
      var t := VisitAll(g, front, s);
      if id in g {
        forall u | u in t.visiting
          ensures Reaches(Depends(g), u, id)
        {
          ReachesNext(Depends(g), u, owner, id);
        }
        VisitKeepsInv(g, id, t);
      }
      assert forall d :: d in ids ==> d in front || d == id;
    }
  }

  lemma {:induction false} VisitAllFromNothing(g: Graph, ids: seq<string>, s: Search)
    requires Inv(g, s) && s.visiting == {}
    ensures var r := VisitAll(g, ids, s);
            && Inv(g, r) && s.visited <= r.visited && r.visiting == {}
            && forall d :: d in ids && d in g ==> d in r.visited
  {
    hide Reaches, Emitted;
    if ids != [] {
      var front, id := ids[..|ids| - 1], ids[|ids| - 1];
      VisitAllFromNothing(g, front, s);
      if id in g {
        VisitKeepsInv(g, id, VisitAll(g, front, s));
      }
      assert forall d :: d in ids ==> d in front || d == id;
    }
  }

  // ---- Keys ----

  lemma {:induction false} KeysAreIds(items: seq<Item>)
    ensures forall id :: id in Keys(items) <==> id in ById(items)
    ensures forall i, j :: 0 <= i < j < |Keys(items)| ==> Keys(items)[i] != Keys(items)[j]
  {
    if items != [] {
      var front := items[..|items| - 1];
      KeysAreIds(front);
      if items[|items| - 1].id !in ById(front) {
        forall i | 0 <= i < |Keys(front)|
          ensures Keys(front)[i] != items[|items| - 1].id
        {
          assert Keys(front)[i] in Keys(front);
        }
      }
    }
  }

  lemma SortedKeys(items: seq<Item>)
    ensures forall id :: id in Sort(Keys(items)) <==> id in ById(items)
  {
    SortIsSort(Keys(items));
    KeysAreIds(items);
    hide Sort, Keys, ById;
    forall id
      ensures id in Sort(Keys(items)) <==> id in Keys(items)
    {
      assert id in multiset(Sort(Keys(items))) <==> id in multiset(Keys(items));
    }
  }

  // ---- Main results ----

  lemma SortedInv(items: seq<Item>)
    ensures var r := VisitAll(ById(items), Sort(Keys(items)), NOTHING);
            Inv(ById(items), r) && r.visited == ById(items).Keys
  {
    hide Reaches, Emitted, Sort, Keys, ById, VisitAll;
    SortedKeys(items);
    VisitAllFromNothing(ById(items), Sort(Keys(items)), NOTHING);
  }

  /** Every id in the map is emitted, once, with the map's item. */
  lemma EmitsEachOnce(items: seq<Item>)
    ensures forall id :: id in ById(items) <==> Emitted(SortItems(items), id)
    ensures forall i :: 0 <= i < |SortItems(items)| ==> SortItems(items)[i].id in ById(items) && SortItems(items)[i] == ById(items)[SortItems(items)[i].id]
    ensures forall i, j :: 0 <= i < j < |SortItems(items)| ==> SortItems(items)[i].id != SortItems(items)[j].id
  {
    hide Reaches, Sort, Keys, VisitAll;
    SortedInv(items);
  }

  /** No later item has the same id. */
  ghost predicate LastWithItsId(items: seq<Item>, k: int) {
    0 <= k < |items| && forall j :: k < j < |items| ==> items[j].id != items[k].id
  }

  lemma {:induction false} LastIsMapped(items: seq<Item>, k: nat)
    requires LastWithItsId(items, k)
    ensures items[k].id in ById(items) && ById(items)[items[k].id] == items[k]
  {
    var front := items[..|items| - 1];
    if k < |front| {
      LastIsMapped(front, k);
      assert items[|front|].id != items[k].id;
    }
  }

  lemma {:induction false} MappedIsLast(items: seq<Item>, id: string) returns (k: nat)
    requires id in ById(items)
    ensures LastWithItsId(items, k) && ById(items)[id] == items[k]
  {
    var front, last := items[..|items| - 1], items[|items| - 1];
    if last.id == id {
      k := |front|;
    } else {
      k := MappedIsLast(front, id);
      assert ById(front)[id].id == id;
    }
  }

  /** The emitted items are, for each id, the last input item with it; no two have the
      same id. */
  lemma EmitsTheLastItems(items: seq<Item>)
    ensures forall item :: item in SortItems(items) <==> exists k :: LastWithItsId(items, k) && items[k] == item
    ensures forall i, j :: 0 <= i < j < |SortItems(items)| ==> SortItems(items)[i].id != SortItems(items)[j].id
  {
    hide SortItems, ById, Emitted;
    EmitsEachOnce(items);
    forall item
      ensures item in SortItems(items) <==> exists k :: LastWithItsId(items, k) && items[k] == item
    {
      if item in SortItems(items) {
        var k := MappedIsLast(items, item.id);
      } else if k :| LastWithItsId(items, k) && items[k] == item {
        LastIsMapped(items, k);
        EmittedItem(items, SortItems(items), item.id);
      }
    }
  }

  lemma EmittedItem(items: seq<Item>, order: seq<Item>, id: string)
    requires id in ById(items) && Emitted(order, id)
    requires forall i :: 0 <= i < |order| ==> order[i].id in ById(items) && order[i] == ById(items)[order[i].id]
    ensures ById(items)[id] in order
  {
    hide ById;
    var i :| 0 <= i < |order| && order[i].id == id;
    assert order[i] == ById(items)[id];
  }

  /** A present dependency comes first, unless its edge lies on a cycle. */
  lemma DependencyFirst(items: seq<Item>, i: nat, d: string)
    requires i < |SortItems(items)| && d in SortItems(items)[i].dependsOn && d in ById(items)
    ensures Emitted(SortItems(items)[..i], d) || Reaches(Depends(ById(items)), d, SortItems(items)[i].id)
  {
    hide Reaches, Emitted, Sort, Keys, VisitAll;
    SortedInv(items);
  }

  ghost predicate Acyclic(g: Graph) {
    forall v, d :: !OnCycle(Depends(g), v, d)
  }

  ghost predicate Topological(g: Graph, order: seq<Item>) {
    forall i, d :: 0 <= i < |order| && d in order[i].dependsOn && d in g ==> Emitted(order[..i], d)
  }

  lemma {:induction false} PathGoesBack(g: Graph, order: seq<Item>, path: seq<string>, i: nat)
    requires Topological(g, order) && IsPath(Depends(g), path) && i < |order| && order[i].id == path[0]
    requires forall k :: 0 <= k < |order| ==> order[k].id in g && order[k] == g[order[k].id]
    ensures exists j :: 0 <= j <= i && order[j].id == path[|path| - 1]
    decreases |path|
  {
    if |path| > 1 {
      assert path[1] in order[i].dependsOn;
      var j :| 0 <= j < |order[..i]| && order[..i][j].id == path[1];
      assert IsPath(Depends(g), path[1..]);
      PathGoesBack(g, order, path[1..], j);
    }
  }

  /** The result is a topological order exactly when the present dependencies have no cycle. */
  lemma TopologicalIffAcyclic(items: seq<Item>)
    ensures Topological(ById(items), SortItems(items)) <==> Acyclic(ById(items))
  {
    hide SortItems, ById;
    var g, order := ById(items), SortItems(items);
    EmitsEachOnce(items);
    if Topological(g, order) {
      forall v, d | Depends(g)(v, d)
        ensures !Reaches(Depends(g), d, v)
      {
        var i :| 0 <= i < |order| && order[i].id == v;
        var j :| 0 <= j < |order[..i]| && order[..i][j].id == d;
        if path :| IsPath(Depends(g), path) && path[0] == d && path[|path| - 1] == v {
          PathGoesBack(g, order, path, j);
        }
      }
    } else {
      var i, d :| 0 <= i < |order| && d in order[i].dependsOn && d in g && !Emitted(order[..i], d);
      DependencyFirst(items, i, d);
      assert OnCycle(Depends(g), order[i].id, d);
    }
  }

  ghost predicate DistinctIds(items: seq<Item>) {
    forall i, j :: 0 <= i < j < |items| ==> items[i].id != items[j].id
  }

  lemma {:induction false} ByIdOfDistinct(items: seq<Item>)
    requires DistinctIds(items)
    ensures forall x :: x in items <==> x.id in ById(items) && ById(items)[x.id] == x
  {
    if items != [] {
      var front, last := items[..|items| - 1], items[|items| - 1];
      ByIdOfDistinct(front);
      assert items == front + [last];
      assert forall x :: x in front ==> x.id != last.id;
    }
  }

  /** With distinct ids the result does not depend on the order of the input. */
  lemma SortIgnoresInputOrder(a: seq<Item>, b: seq<Item>)
    requires DistinctIds(a) && DistinctIds(b) && multiset(a) == multiset(b)
    ensures SortItems(a) == SortItems(b)
  {
    hide VisitAll, Sort, DistinctIds;
    ByIdOfDistinct(a);
    ByIdOfDistinct(b);
    forall x
      ensures x in a <==> x in b
    {
      assert x in multiset(a) <==> x in multiset(b);
    }
    SameGraph(a, b);
    KeysAreIds(a);
    KeysAreIds(b);
    assert KeySet(Keys(a)) == KeySet(Keys(b));
    SameKeysSameMultiset(Keys(a), Keys(b));
    SortIgnoresOrder(Keys(a), Keys(b));
  }

  lemma SameGraph(a: seq<Item>, b: seq<Item>)
    requires forall x :: x in a <==> x in b
    requires forall x :: x in a <==> x.id in ById(a) && ById(a)[x.id] == x
    requires forall x :: x in b <==> x.id in ById(b) && ById(b)[x.id] == x
    ensures ById(a) == ById(b)
  {
    forall id
      ensures id in ById(a) <==> id in ById(b)
    {
      if id in ById(a) {
        assert ById(a)[id] in a;
      }
      if id in ById(b) {
        assert ById(b)[id] in b;
      }
    }
    forall id | id in ById(a)
      ensures ById(a)[id] == ById(b)[id]
    {
      assert ById(a)[id] in b;
    }
  }

  // ---- The search as the program runs it ----

  class Sorter {
    const byId: Graph
    var visiting: set<string>
    var visited: set<string>
    var result: seq<Item>

    constructor (items: seq<Item>)
      ensures byId == ById(items) && State() == NOTHING
    {
      byId := ById(items);
      visiting, visited, result := {}, {}, [];
    }

    ghost function State(): Search
      reads this
    {
      Search(visiting, visited, result)
    }

    method VisitId(id: string)
      requires id in byId && visiting <= byId.Keys
      modifies this
      ensures State() == Visit(byId, id, old(State()))
      decreases |byId.Keys - visiting|
    {
      if id in visited || id in visiting {
        return;
      }
      FewerLeft(byId.Keys - (visiting + {id}), byId.Keys - visiting);
      visiting := visiting + {id};
      ghost var start := State();
      var ids := byId[id].dependsOn;
      for i := 0 to |ids|
        invariant State() == VisitAll(byId, ids[..i], start)
      {
        assert ids[..i + 1][..i] == ids[..i];
        if ids[i] in byId {
          VisitId(ids[i]);
        }
      }
      assert ids[..|ids|] == ids;
      visiting := visiting - {id};
      visited := visited + {id};
      result := result + [byId[id]];
    }

    method Run(sortedIds: seq<string>)
      requires State() == NOTHING && forall id :: id in sortedIds ==> id in byId
      modifies this
      ensures result == VisitAll(byId, sortedIds, NOTHING).result
    {
      for i := 0 to |sortedIds|
        invariant State() == VisitAll(byId, sortedIds[..i], NOTHING)
      {
        assert sortedIds[..i + 1][..i] == sortedIds[..i];
        VisitId(sortedIds[i]);
      }
      assert sortedIds[..|sortedIds|] == sortedIds;
    }
  }

  method SortItemsDependencyBeforeDependent(items: seq<Item>) returns (sorted: seq<Item>)
    ensures sorted == SortItems(items)
  {
    var sorter := new Sorter(items);
    SortedKeys(items);
    sorter.Run(Sort(Keys(items)));
    sorted := sorter.result;
  }
}
