/** projectJsonSafeValue of json-safe.ts: the projection of an arbitrary object graph
    to a JSON tree, with the set of objects on the current path. */
module JsonProjection {
  import opened JsonValues
  import opened Reachability

  // ---- Object graphs ----

  type Id = int

  datatype Value =
    | Undefined
    | Scalar(json: Json)
    | NonFinite
    | NonJson
    | Ref(id: Id)

  datatype Entry = Entry(key: string, value: Value)

  datatype Node =
    | ArrayNode(entries: seq<Value>, symbolKeys: bool)
    | PlainNode(members: seq<Entry>, symbolKeys: bool)
    | DateNode
    | CollectionNode
    | OtherNode

  type Heap = map<Id, Node>

  /** Scalars are scalars, and every reference leads to an object. */
  ghost predicate ValidValue(h: Heap, v: Value) {
    && (v.Scalar? ==> v.json.Null? || v.json.Bool? || v.json.Number? || v.json.Text?)
    && (v.Ref? ==> v.id in h)
  }

  ghost predicate ValidNode(h: Heap, n: Node) {
    && (n.ArrayNode? ==> forall i :: 0 <= i < |n.entries| ==> ValidValue(h, n.entries[i]))
    && (n.PlainNode? ==> forall i :: 0 <= i < |n.members| ==> ValidValue(h, n.members[i].value))
  }

  ghost predicate ValidHeap(h: Heap) {
    forall id :: id in h ==> ValidNode(h, h[id])
  }

  // ---- The projection ----

  datatype Problem = IsNonFinite | IsNonJson | IsDate | IsCollection | HasSymbolKey | IsCycle | IsNonPlain

  datatype Step = Index(i: nat) | Key(key: string)

  type Path = seq<Step>

  datatype Projected = Dropped | Kept(json: Json) | Failed(problem: Problem, path: Path)

  datatype Items = Items(items: seq<Json>) | ItemsFailed(problem: Problem, path: Path)

  datatype Members = Members(members: seq<Member>) | MembersFailed(problem: Problem, path: Path)

  function Project(h: Heap, v: Value, path: Path, seen: set<Id>): Projected
    requires ValidHeap(h) && ValidValue(h, v) && seen <= h.Keys
    decreases |h.Keys - seen|, 0
  {
    match v
    case Undefined => Dropped
    case Scalar(json) => Kept(json)
    case NonFinite => Failed(IsNonFinite, path)
    case NonJson => Failed(IsNonJson, path)
    case Ref(id) =>
      assert ValidNode(h, h[id]);
      match h[id]
      case DateNode => Failed(IsDate, path)
      case CollectionNode => Failed(IsCollection, path)
      case OtherNode => Failed(IsNonPlain, path)
      case ArrayNode(entries, symbolKeys) =>
        if symbolKeys then Failed(HasSymbolKey, path)
        else if id in seen then Failed(IsCycle, path)
        else
          LessLeft(h.Keys, seen, id);
          (match ProjectEntries(h, entries, path, seen + {id})
           case Items(items) => Kept(Array(items))
           case ItemsFailed(problem, at) => Failed(problem, at))
      case PlainNode(members, symbolKeys) =>
        if symbolKeys then Failed(HasSymbolKey, path)
        else if id in seen then Failed(IsCycle, path)
        else
          LessLeft(h.Keys, seen, id);
          (match ProjectMembers(h, members, path, seen + {id})
           case Members(projected) => Kept(Object(projected))
           case MembersFailed(problem, at) => Failed(problem, at))
  }

  function ProjectEntries(h: Heap, entries: seq<Value>, path: Path, seen: set<Id>): Items
    requires ValidHeap(h) && (forall i :: 0 <= i < |entries| ==> ValidValue(h, entries[i])) && seen <= h.Keys
    decreases |h.Keys - seen|, |entries| + 1
  {
    if entries == [] then Items([])
    else
      var n := |entries| - 1;
      match ProjectEntries(h, entries[..n], path, seen)
      case ItemsFailed(problem, at) => ItemsFailed(problem, at)
      case Items(items) =>
        match Project(h, entries[n], path + [Index(n)], seen)
        case Dropped => Items(items)
        case Kept(json) => Items(items + [json])
        case Failed(problem, at) => ItemsFailed(problem, at)
  }

  function ProjectMembers(h: Heap, members: seq<Entry>, path: Path, seen: set<Id>): Members
    requires ValidHeap(h) && (forall i :: 0 <= i < |members| ==> ValidValue(h, members[i].value)) && seen <= h.Keys
    decreases |h.Keys - seen|, |members| + 1
  {
    if members == [] then Members([])
    else
      var n := |members| - 1;
      match ProjectMembers(h, members[..n], path, seen)
      case MembersFailed(problem, at) => MembersFailed(problem, at)
      case Members(projected) =>
        match Project(h, members[n].value, path + [Key(members[n].key)], seen)
        case Dropped => Members(projected)
        case Kept(json) => Members(projected + [Member(members[n].key, json)])
        case Failed(problem, at) => MembersFailed(problem, at)
  }

  lemma LessLeft(all: set<Id>, seen: set<Id>, id: Id)
    requires id in all && id !in seen
    ensures |all - (seen + {id})| < |all - seen|
  {
    assert all - seen == (all - (seen + {id})) + {id};
  }

  // ---- The tree a graph stands for ----

  function Live(entries: seq<Value>): seq<Value> {
    if entries == [] then []
    else Live(entries[..|entries| - 1]) + (if entries[|entries| - 1].Undefined? then [] else [entries[|entries| - 1]])
  }

  function LiveMembers(members: seq<Entry>): seq<Entry> {
    if members == [] then []
    else LiveMembers(members[..|members| - 1]) + (if members[|members| - 1].value.Undefined? then [] else [members[|members| - 1]])
  }

  /** `j` is the tree unfolding of `v`, with undefined entries dropped. */
  ghost predicate Unfolds(h: Heap, v: Value, j: Json)
    decreases j
  {
    match v
    case Undefined => false
    case NonFinite => false
    case NonJson => false
    case Scalar(json) => j == json
    case Ref(id) =>
      id in h &&
      match h[id]
      case ArrayNode(entries, symbolKeys) =>
        !symbolKeys && j.Array? && |Live(entries)| == |j.items|
        && forall i :: 0 <= i < |j.items| ==> Unfolds(h, Live(entries)[i], j.items[i])
      case PlainNode(members, symbolKeys) =>
        !symbolKeys && j.Object? && |LiveMembers(members)| == |j.members|
        && forall i :: 0 <= i < |j.members| ==>
             LiveMembers(members)[i].key == j.members[i].key && Unfolds(h, LiveMembers(members)[i].value, j.members[i].value)
      case _ => false
  }

  /** A value has at most one unfolding. */
  lemma {:induction false} UnfoldingIsUnique(h: Heap, v: Value, a: Json, b: Json)
    requires Unfolds(h, v, a) && Unfolds(h, v, b)
    ensures a == b
    decreases a
  {
    if v.Ref? {
      if a.Array? {
        forall i | 0 <= i < |a.items|
          ensures a.items[i] == b.items[i]
        {
          UnfoldingIsUnique(h, Live(h[v.id].entries)[i], a.items[i], b.items[i]);
        }
        assert a.items == b.items;
      } else {
        forall i | 0 <= i < |a.members|
          ensures a.members[i] == b.members[i]
        {
          UnfoldingIsUnique(h, LiveMembers(h[v.id].members)[i].value, a.members[i].value, b.members[i].value);
        }
        assert a.members == b.members;
      }
    }
  }

  // ---- Soundness ----

  lemma {:induction false} KeptUnfolds(h: Heap, v: Value, path: Path, seen: set<Id>)
    requires ValidHeap(h) && ValidValue(h, v) && seen <= h.Keys
    ensures Project(h, v, path, seen).Kept? ==> Unfolds(h, v, Project(h, v, path, seen).json)
    ensures Project(h, v, path, seen).Dropped? <==> v.Undefined?
    decreases |h.Keys - seen|, 0
  {
    if v.Ref? && v.id !in seen {
      assert ValidNode(h, h[v.id]);
      LessLeft(h.Keys, seen, v.id);
      if h[v.id].ArrayNode? {
        EntriesUnfold(h, h[v.id].entries, path, seen + {v.id});
      } else if h[v.id].PlainNode? {
        MembersUnfold(h, h[v.id].members, path, seen + {v.id});
      }
    }
  }

  lemma {:induction false} EntriesUnfold(h: Heap, entries: seq<Value>, path: Path, seen: set<Id>)
    requires ValidHeap(h) && (forall i :: 0 <= i < |entries| ==> ValidValue(h, entries[i])) && seen <= h.Keys
    ensures var r := ProjectEntries(h, entries, path, seen);
            r.Items? ==> |r.items| == |Live(entries)| && forall i :: 0 <= i < |r.items| ==> Unfolds(h, Live(entries)[i], r.items[i])
    decreases |h.Keys - seen|, |entries| + 1
  {
    if entries != [] {
      var n := |entries| - 1;
      EntriesUnfold(h, entries[..n], path, seen);
      KeptUnfolds(h, entries[n], path + [Index(n)], seen);
    }
  }

  lemma {:induction false} MembersUnfold(h: Heap, members: seq<Entry>, path: Path, seen: set<Id>)
    requires ValidHeap(h) && (forall i :: 0 <= i < |members| ==> ValidValue(h, members[i].value)) && seen <= h.Keys
    ensures var r := ProjectMembers(h, members, path, seen);
            r.Members? ==> |r.members| == |LiveMembers(members)| && forall i :: 0 <= i < |r.members| ==>
              LiveMembers(members)[i].key == r.members[i].key && Unfolds(h, LiveMembers(members)[i].value, r.members[i].value)
    decreases |h.Keys - seen|, |members| + 1
  {
    if members != [] {
      var n := |members| - 1;
      MembersUnfold(h, members[..n], path, seen);
      KeptUnfolds(h, members[n].value, path + [Key(members[n].key)], seen);
    }
  }

  // ---- Completeness ----

  function Size(j: Json): (n: nat)
    ensures n >= 1
  {
    match j
    case Array(items) => 1 + SizeOfItems(items)
    case Object(members) => 1 + SizeOfMembers(members)
    case _ => 1
  }

  function SizeOfItems(items: seq<Json>): nat {
    if items == [] then 0 else SizeOfItems(items[..|items| - 1]) + Size(items[|items| - 1])
  }

  function SizeOfMembers(members: seq<Member>): nat {
    if members == [] then 0 else SizeOfMembers(members[..|members| - 1]) + Size(members[|members| - 1].value)
  }

  /** The objects on the current path unfold to trees larger than `bound`. */
  ghost predicate Above(h: Heap, seen: set<Id>, bound: nat) {
    forall s :: s in seen ==> exists big :: Unfolds(h, Ref(s), big) && Size(big) > bound
  }

  lemma AboveLess(h: Heap, seen: set<Id>, bound: nat, less: nat)
    requires Above(h, seen, bound) && less <= bound
    ensures Above(h, seen, less)
  {
    hide Unfolds, Size;
  }

  lemma AboveHere(h: Heap, seen: set<Id>, id: Id, j: Json, bound: nat)
    requires Above(h, seen, Size(j)) && Unfolds(h, Ref(id), j) && bound < Size(j)
    ensures id !in seen && Above(h, seen + {id}, bound)
  {
    hide Unfolds, Size;
    if id in seen {
      var big :| Unfolds(h, Ref(id), big) && Size(big) > Size(j);
      UnfoldingIsUnique(h, Ref(id), big, j);
    }
  }

  lemma {:induction false} UnfoldingIsKept(h: Heap, v: Value, j: Json, path: Path, seen: set<Id>)
    requires ValidHeap(h) && ValidValue(h, v) && seen <= h.Keys && Unfolds(h, v, j) && Above(h, seen, Size(j))
    ensures Project(h, v, path, seen) == Kept(j)
    decreases |h.Keys - seen|, 0
  {
    hide Above;
    if v.Ref? {
      assert ValidNode(h, h[v.id]);
      AboveHere(h, seen, v.id, j, Size(j) - 1);
      LessLeft(h.Keys, seen, v.id);
      if j.Array? {
        UnfoldingsAreItems(h, h[v.id].entries, j.items, path, seen + {v.id});
      } else {
        UnfoldingsAreMembers(h, h[v.id].members, j.members, path, seen + {v.id});
      }
    }
  }

  lemma {:induction false} UnfoldingsAreItems(h: Heap, entries: seq<Value>, items: seq<Json>, path: Path, seen: set<Id>)
    requires ValidHeap(h) && (forall i :: 0 <= i < |entries| ==> ValidValue(h, entries[i])) && seen <= h.Keys
    requires |Live(entries)| == |items| && forall i :: 0 <= i < |items| ==> Unfolds(h, Live(entries)[i], items[i])
    requires Above(h, seen, SizeOfItems(items))
    ensures ProjectEntries(h, entries, path, seen) == Items(items)
    decreases |h.Keys - seen|, |entries| + 1
  {
    hide Above, Unfolds;
    if entries != [] {
      var n := |entries| - 1;
      if entries[n].Undefined? {
        UnfoldingsAreItems(h, entries[..n], items, path, seen);
      } else {
        var m := |items| - 1;
        AboveLess(h, seen, SizeOfItems(items), SizeOfItems(items[..m]));
        AboveLess(h, seen, SizeOfItems(items), Size(items[m]));
        UnfoldingsAreItems(h, entries[..n], items[..m], path, seen);
        UnfoldingIsKept(h, entries[n], items[m], path + [Index(n)], seen);
        assert items[..m] + [items[m]] == items;
      }
    }
  }

  lemma {:induction false} UnfoldingsAreMembers(h: Heap, members: seq<Entry>, projected: seq<Member>, path: Path, seen: set<Id>)
    requires ValidHeap(h) && (forall i :: 0 <= i < |members| ==> ValidValue(h, members[i].value)) && seen <= h.Keys
    requires |LiveMembers(members)| == |projected| && forall i :: 0 <= i < |projected| ==>
               LiveMembers(members)[i].key == projected[i].key && Unfolds(h, LiveMembers(members)[i].value, projected[i].value)
    requires Above(h, seen, SizeOfMembers(projected))
    ensures ProjectMembers(h, members, path, seen) == Members(projected)
    decreases |h.Keys - seen|, |members| + 1
  {
    hide Above, Unfolds;
    if members != [] {
      var n := |members| - 1;
      if members[n].value.Undefined? {
        UnfoldingsAreMembers(h, members[..n], projected, path, seen);
      } else {
        var m := |projected| - 1;
        AboveLess(h, seen, SizeOfMembers(projected), SizeOfMembers(projected[..m]));
        AboveLess(h, seen, SizeOfMembers(projected), Size(projected[m].value));
        UnfoldingsAreMembers(h, members[..n], projected[..m], path, seen);
        UnfoldingIsKept(h, members[n].value, projected[m].value, path + [Key(members[n].key)], seen);
        hide SizeOfMembers, Size;
        assert projected[..m] + [projected[m]] == projected;
      }
    }
  }

  /** The projection is exactly the unfolding: it returns a tree if and only if the
      graph unfolds to that tree. */
  lemma ProjectIffUnfolds(h: Heap, v: Value, path: Path, j: Json)
    requires ValidHeap(h) && ValidValue(h, v)
    ensures Project(h, v, path, {}) == Kept(j) <==> Unfolds(h, v, j)
  {
    KeptUnfolds(h, v, path, {});
    if Unfolds(h, v, j) {
      UnfoldingIsKept(h, v, j, path, {});
    }
  }

  // ---- Every tree is the unfolding of some graph ----

  lemma {:induction false} UnfoldsInLarger(h: Heap, larger: Heap, v: Value, j: Json)
    requires Unfolds(h, v, j) && forall id :: id in h ==> id in larger && larger[id] == h[id]
    ensures Unfolds(larger, v, j)
    decreases j
  {
    if v.Ref? {
      if j.Array? {
        forall i | 0 <= i < |j.items|
          ensures Unfolds(larger, Live(h[v.id].entries)[i], j.items[i])
        {
          UnfoldsInLarger(h, larger, Live(h[v.id].entries)[i], j.items[i]);
        }
      } else {
        forall i | 0 <= i < |j.members|
          ensures Unfolds(larger, LiveMembers(h[v.id].members)[i].value, j.members[i].value)
        {
          UnfoldsInLarger(h, larger, LiveMembers(h[v.id].members)[i].value, j.members[i].value);
        }
      }
    }
  }

  /** A heap with ids from `next` up to `after`, and a defined value for each tree. */
  ghost predicate Holding(h: Heap, values: seq<Value>, trees: seq<Json>, next: Id, after: Id) {
    && next <= after && ValidHeap(h) && (forall id :: id in h ==> next <= id < after) && |values| == |trees|
    && forall i :: 0 <= i < |trees| ==> ValidValue(h, values[i]) && !values[i].Undefined? && Unfolds(h, values[i], trees[i])
  }

  lemma HoldingConcat(h: Heap, values: seq<Value>, trees: seq<Json>, next: Id, middle: Id, more: Heap, v: Value, tree: Json, after: Id)
    requires Holding(h, values, trees, next, middle) && Holding(more, [v], [tree], middle, after)
    ensures Holding(h + more, values + [v], trees + [tree], next, after)
  {
    hide Unfolds;
    var all := h + more;
    assert ValidValue(more, [v][0]) && Unfolds(more, [v][0], [tree][0]);
    forall id | id in all
      ensures ValidNode(all, all[id])
    {
      assert id in h ==> id !in more && ValidNode(h, h[id]);
      assert id in more ==> ValidNode(more, more[id]);
    }
    UnfoldsInLarger(more, all, v, tree);
    forall i | 0 <= i < |trees|
      ensures ValidValue(all, values[i]) && Unfolds(all, values[i], trees[i])
    {
      UnfoldsInLarger(h, all, values[i], trees[i]);
    }
  }

  lemma {:induction false} LiveIsAll(entries: seq<Value>)
    requires forall i :: 0 <= i < |entries| ==> !entries[i].Undefined?
    ensures Live(entries) == entries
  {
    if entries != [] {
      LiveIsAll(entries[..|entries| - 1]);
    }
  }

  lemma {:induction false} LiveMembersIsAll(members: seq<Entry>)
    requires forall i :: 0 <= i < |members| ==> !members[i].value.Undefined?
    ensures LiveMembers(members) == members
  {
    if members != [] {
      LiveMembersIsAll(members[..|members| - 1]);
    }
  }

  /** A fresh node does not disturb what is below it. */
  lemma NodeHolds(below: Heap, values: seq<Value>, trees: seq<Json>, next: Id, middle: Id, h: Heap)
    requires Holding(below, values, trees, next, middle) && middle in h && h == below[middle := h[middle]]
    ensures forall i :: 0 <= i < |trees| ==> ValidValue(h, values[i]) && Unfolds(h, values[i], trees[i])
    ensures forall id :: id in below ==> ValidNode(h, h[id])
  {
    hide Unfolds;
    forall id | id in below
      ensures ValidNode(h, h[id])
    {
      assert ValidNode(below, below[id]);
    }
    forall i | 0 <= i < |trees|
      ensures ValidValue(h, values[i]) && Unfolds(h, values[i], trees[i])
    {
      UnfoldsInLarger(below, h, values[i], trees[i]);
    }
  }

  lemma ArrayUnfolds(h: Heap, id: Id, entries: seq<Value>, items: seq<Json>)
    requires id in h && h[id] == ArrayNode(entries, false) && |entries| == |items|
    requires forall i :: 0 <= i < |items| ==> !entries[i].Undefined? && Unfolds(h, entries[i], items[i])
    ensures Unfolds(h, Ref(id), Array(items))
  {
    LiveIsAll(entries);
  }

  lemma ArrayHolds(below: Heap, values: seq<Value>, items: seq<Json>, next: Id, middle: Id)
    requires Holding(below, values, items, next, middle)
    ensures Holding(below[middle := ArrayNode(values, false)], [Ref(middle)], [Array(items)], next, middle + 1)
  {
    hide Unfolds;
    var h := below[middle := ArrayNode(values, false)];
    NodeHolds(below, values, items, next, middle, h);
    ArrayUnfolds(h, middle, values, items);
  }

  lemma ObjectUnfolds(h: Heap, id: Id, entries: seq<Entry>, members: seq<Member>)
    requires id in h && h[id] == PlainNode(entries, false) && |entries| == |members|
    requires forall i :: 0 <= i < |members| ==>
               entries[i].key == members[i].key && !entries[i].value.Undefined? && Unfolds(h, entries[i].value, members[i].value)
    ensures Unfolds(h, Ref(id), Object(members))
  {
    LiveMembersIsAll(entries);
  }

  lemma ObjectHolds(below: Heap, values: seq<Value>, trees: seq<Json>, members: seq<Member>, entries: seq<Entry>, next: Id, middle: Id)
    requires Holding(below, values, trees, next, middle) && |members| == |trees| == |entries|
    requires forall i :: 0 <= i < |members| ==> members[i].value == trees[i] && entries[i] == Entry(members[i].key, values[i])
    ensures Holding(below[middle := PlainNode(entries, false)], [Ref(middle)], [Object(members)], next, middle + 1)
  {
    hide Unfolds;
    var h := below[middle := PlainNode(entries, false)];
    NodeHolds(below, values, trees, next, middle, h);
    ObjectUnfolds(h, middle, entries, members);
  }

  /** Every tree is the unfolding of some object graph. */
  lemma {:induction false} TreeHasHeap(tree: Json, next: Id) returns (h: Heap, v: Value, after: Id)
    ensures Holding(h, [v], [tree], next, after)
    decreases tree, 1, 0
  {
    match tree
    case Array(items) =>
      hide Holding;
      var below, values, middle := TreesHaveHeap(items, tree, next);
      h, v, after := below[middle := ArrayNode(values, false)], Ref(middle), middle + 1;
      ArrayHolds(below, values, items, next, middle);
    case Object(members) =>
      var trees := seq(|members|, i requires 0 <= i < |members| => members[i].value);
      var below, values, middle := TreesHaveHeap(trees, tree, next);
      assert |values| == |trees|;
      hide Holding;
      var entries := seq(|members|, i requires 0 <= i < |members| => Entry(members[i].key, values[i]));
      h, v, after := below[middle := PlainNode(entries, false)], Ref(middle), middle + 1;
      ObjectHolds(below, values, trees, members, entries, next, middle);
    case _ =>
      h, v, after := map[], Scalar(tree), next;
  }

  lemma {:induction false} TreesHaveHeap(trees: seq<Json>, parent: Json, next: Id) returns (h: Heap, values: seq<Value>, after: Id)
    requires forall i :: 0 <= i < |trees| ==> trees[i] < parent
    ensures Holding(h, values, trees, next, after)
    decreases parent, 0, |trees|
  {
    if trees == [] {
      h, values, after := map[], [], next;
    } else {
      var n := |trees| - 1;
      var front, some, middle := TreesHaveHeap(trees[..n], parent, next);
      var more, v, end := TreeHasHeap(trees[n], middle);
      HoldingConcat(front, some, trees[..n], next, middle, more, v, trees[n], end);
      h, values, after := front + more, some + [v], end;
      assert trees == trees[..n] + [trees[n]];
    }
  }

  /** The result of a projection is itself the unfolding of a graph, and projecting any
      such graph gives it back: projecting a second time changes nothing. */
  lemma ProjectionProjectsToItself(h: Heap, v: Value, path: Path) returns (h': Heap, v': Value)
    requires ValidHeap(h) && ValidValue(h, v) && Project(h, v, path, {}).Kept?
    ensures ValidHeap(h') && ValidValue(h', v')
    ensures Project(h', v', path, {}) == Project(h, v, path, {})
  {
    hide Project, Unfolds;
    var tree := Project(h, v, path, {}).json;
    var after;
    h', v', after := TreeHasHeap(tree, 0);
    assert ValidValue(h', [v'][0]) && Unfolds(h', [v'][0], [tree][0]);
    ProjectAgain(h, v, path, h', v', path);
  }

  /** Projecting again changes nothing: any graph that holds the projected tree
      projects to that tree. */
  lemma ProjectAgain(h: Heap, v: Value, path: Path, h': Heap, v': Value, path': Path)
    requires ValidHeap(h) && ValidValue(h, v) && ValidHeap(h') && ValidValue(h', v')
    requires Project(h, v, path, {}).Kept? && Unfolds(h', v', Project(h, v, path, {}).json)
    ensures Project(h', v', path', {}) == Project(h, v, path, {})
  {
    ProjectIffUnfolds(h', v', path', Project(h, v, path, {}).json);
  }

  // ---- What is rejected ----

  function Children(n: Node): seq<Value> {
    match n
    case ArrayNode(entries, _) => entries
    case PlainNode(members, _) => seq(|members|, i requires 0 <= i < |members| => members[i].value)
    case _ => []
  }

  /** From an object to an object it holds. */
  function Holds(h: Heap): (Id, Id) -> bool {
    (a, b) => a in h && Ref(b) in Children(h[a])
  }

  ghost predicate CycleFrom(h: Heap, v: Value) {
    v.Ref? && exists a, b :: Reaches(Holds(h), v.id, a) && OnCycle(Holds(h), a, b)
  }

  predicate Bad(h: Heap, v: Value) {
    || v.NonFinite? || v.NonJson?
    || (v.Ref? && v.id in h && match h[v.id]
                               case ArrayNode(_, symbolKeys) => symbolKeys
                               case PlainNode(_, symbolKeys) => symbolKeys
                               case _ => true)
  }

  ghost predicate BadFrom(h: Heap, v: Value) {
    Bad(h, v) || (v.Ref? && exists a, w :: Reaches(Holds(h), v.id, a) && a in h && w in Children(h[a]) && Bad(h, w))
  }

  /** What is wrong below a child is wrong below its parent. */
  lemma ChildProblems(h: Heap, id: Id, w: Value)
    requires id in h && w in Children(h[id])
    ensures CycleFrom(h, w) ==> CycleFrom(h, Ref(id))
    ensures BadFrom(h, w) ==> BadFrom(h, Ref(id))
  {
    hide Bad, Reaches, Children;
    if CycleFrom(h, w) {
      var a, b :| Reaches(Holds(h), w.id, a) && OnCycle(Holds(h), a, b);
      ReachesAfter(Holds(h), id, w.id, a);
    }
    if Bad(h, w) {
      ReachesSelf(Holds(h), id);
    } else if BadFrom(h, w) {
      var a, x :| Reaches(Holds(h), w.id, a) && a in h && x in Children(h[a]) && Bad(h, x);
      ReachesAfter(Holds(h), id, w.id, a);
    }
  }

  ghost predicate Problematic(h: Heap, v: Value, problem: Problem) {
    if problem == IsCycle then CycleFrom(h, v) else BadFrom(h, v)
  }

  /** Every object on the current path leads to `owner`. */
  ghost predicate LeadTo(h: Heap, seen: set<Id>, owner: Id) {
    forall s :: s in seen ==> Reaches(Holds(h), s, owner)
  }

  lemma {:induction false} FailureIsReal(h: Heap, v: Value, path: Path, seen: set<Id>, owner: Id)
    requires ValidHeap(h) && ValidValue(h, v) && seen <= h.Keys
    requires seen != {} ==> LeadTo(h, seen, owner) && owner in h && v in Children(h[owner])
    ensures Project(h, v, path, seen).Failed? ==> Problematic(h, v, Project(h, v, path, seen).problem)
    decreases |h.Keys - seen|, 0
  {
    hide Reaches;
    if v.Ref? && !Bad(h, v) {
      assert ValidNode(h, h[v.id]);
      if v.id in seen {
        assert OnCycle(Holds(h), owner, v.id);
      } else {
        LessLeft(h.Keys, seen, v.id);
        forall s | s in seen + {v.id}
          ensures Reaches(Holds(h), s, v.id)
        {
          if s == v.id {
            ReachesSelf(Holds(h), s);
          } else {
            ReachesNext(Holds(h), s, owner, v.id);
          }
        }
        hide CycleFrom, BadFrom;
        if h[v.id].ArrayNode? {
          EntryFailureIsReal(h, h[v.id].entries, path, seen + {v.id}, v.id);
        } else {
          MemberFailureIsReal(h, h[v.id].members, path, seen + {v.id}, v.id);
        }
      }
    }
  }

  lemma {:induction false} EntryFailureIsReal(h: Heap, entries: seq<Value>, path: Path, seen: set<Id>, owner: Id)
    requires ValidHeap(h) && (forall i :: 0 <= i < |entries| ==> ValidValue(h, entries[i])) && seen <= h.Keys
    requires LeadTo(h, seen, owner) && owner in h && forall i :: 0 <= i < |entries| ==> entries[i] in Children(h[owner])
    ensures ProjectEntries(h, entries, path, seen).ItemsFailed? ==> Problematic(h, Ref(owner), ProjectEntries(h, entries, path, seen).problem)
    decreases |h.Keys - seen|, |entries| + 1
  {
    hide CycleFrom, BadFrom, LeadTo, Children;
    if entries != [] {
      var n := |entries| - 1;
      EntryFailureIsReal(h, entries[..n], path, seen, owner);
      FailureIsReal(h, entries[n], path + [Index(n)], seen, owner);
      ChildProblems(h, owner, entries[n]);
    }
  }

  lemma {:induction false} MemberFailureIsReal(h: Heap, members: seq<Entry>, path: Path, seen: set<Id>, owner: Id)
    requires ValidHeap(h) && (forall i :: 0 <= i < |members| ==> ValidValue(h, members[i].value)) && seen <= h.Keys
    requires LeadTo(h, seen, owner) && owner in h && forall i :: 0 <= i < |members| ==> members[i].value in Children(h[owner])
    ensures ProjectMembers(h, members, path, seen).MembersFailed? ==> Problematic(h, Ref(owner), ProjectMembers(h, members, path, seen).problem)
    decreases |h.Keys - seen|, |members| + 1
  {
    hide CycleFrom, BadFrom, LeadTo, Children;
    if members != [] {
      var n := |members| - 1;
      MemberFailureIsReal(h, members[..n], path, seen, owner);
      FailureIsReal(h, members[n].value, path + [Key(members[n].key)], seen, owner);
      ChildProblems(h, owner, members[n].value);
    }
  }

  // ---- What is accepted ----

  lemma {:induction false} LiveOnes(entries: seq<Value>, w: Value)
    requires w in entries && !w.Undefined?
    ensures exists i :: 0 <= i < |Live(entries)| && Live(entries)[i] == w
  {
    var n := |entries| - 1;
    if w == entries[n] {
      assert Live(entries)[|Live(entries)| - 1] == w;
    } else {
      LiveOnes(entries[..n], w);
      var i :| 0 <= i < |Live(entries[..n])| && Live(entries[..n])[i] == w;
      assert Live(entries)[i] == w;
    }
  }

  lemma {:induction false} LiveMemberOnes(members: seq<Entry>, k: nat)
    requires k < |members| && !members[k].value.Undefined?
    ensures exists i :: 0 <= i < |LiveMembers(members)| && LiveMembers(members)[i] == members[k]
  {
    var n := |members| - 1;
    if k == n {
      assert LiveMembers(members)[|LiveMembers(members)| - 1] == members[k];
    } else {
      LiveMemberOnes(members[..n], k);
      var i :| 0 <= i < |LiveMembers(members[..n])| && LiveMembers(members[..n])[i] == members[k];
      assert LiveMembers(members)[i] == members[k];
    }
  }

  lemma {:induction false} ItemIsSmaller(items: seq<Json>, i: nat)
    requires i < |items|
    ensures Size(items[i]) <= SizeOfItems(items)
  {
    if i < |items| - 1 {
      ItemIsSmaller(items[..|items| - 1], i);
    }
  }

  lemma {:induction false} MemberIsSmaller(members: seq<Member>, i: nat)
    requires i < |members|
    ensures Size(members[i].value) <= SizeOfMembers(members)
  {
    if i < |members| - 1 {
      MemberIsSmaller(members[..|members| - 1], i);
    }
  }

  /** A defined child of an unfolding object unfolds to a smaller tree. */
  lemma ChildUnfolds(h: Heap, id: Id, w: Value, j: Json) returns (child: Json)
    requires Unfolds(h, Ref(id), j) && w in Children(h[id]) && !w.Undefined?
    ensures Unfolds(h, w, child) && Size(child) < Size(j)
  {
    if j.Array? {
      LiveOnes(h[id].entries, w);
      var i :| 0 <= i < |j.items| && Live(h[id].entries)[i] == w;
      ItemIsSmaller(j.items, i);
      child := j.items[i];
    } else {
      var k :| 0 <= k < |h[id].members| && h[id].members[k].value == w;
      LiveMemberOnes(h[id].members, k);
      var i :| 0 <= i < |j.members| && LiveMembers(h[id].members)[i] == h[id].members[k];
      MemberIsSmaller(j.members, i);
      child := j.members[i].value;
    }
  }

  lemma {:induction false} UnfoldsAlong(h: Heap, path: seq<Id>, j: Json) returns (end: Json)
    requires IsPath(Holds(h), path) && Unfolds(h, Ref(path[0]), j)
    ensures Unfolds(h, Ref(path[|path| - 1]), end) && Size(end) <= Size(j)
    decreases |path|
  {
    hide Unfolds, Size, Children;
    if |path| == 1 {
      end := j;
    } else {
      assert Holds(h)(path[0], path[1]);
      var next := ChildUnfolds(h, path[0], Ref(path[1]), j);
      assert IsPath(Holds(h), path[1..]);
      end := UnfoldsAlong(h, path[1..], next);
    }
  }

  lemma UnfoldsWhereReached(h: Heap, a: Id, b: Id, j: Json) returns (end: Json)
    requires Unfolds(h, Ref(a), j) && Reaches(Holds(h), a, b)
    ensures Unfolds(h, Ref(b), end) && Size(end) <= Size(j)
  {
    hide Unfolds, Size;
    var path :| IsPath(Holds(h), path) && path[0] == a && path[|path| - 1] == b;
    end := UnfoldsAlong(h, path, j);
  }

  lemma UnfoldingHasNoCycle(h: Heap, v: Value, j: Json)
    requires Unfolds(h, v, j)
    ensures !CycleFrom(h, v)
  {
    hide Unfolds, Size, Reaches, Children;
    if CycleFrom(h, v) {
      var a, b :| Reaches(Holds(h), v.id, a) && OnCycle(Holds(h), a, b);
      var ja := UnfoldsWhereReached(h, v.id, a, j);
      var jb := ChildUnfolds(h, a, Ref(b), ja);
      var again := UnfoldsWhereReached(h, b, a, jb);
      UnfoldingIsUnique(h, Ref(a), ja, again);
      assert false;
    }
  }

  lemma UnfoldingIsNotBad(h: Heap, v: Value, j: Json)
    requires Unfolds(h, v, j)
    ensures !BadFrom(h, v)
  {
    NotBadHere(h, v, j);
    hide Unfolds, Size, Reaches, Children, Bad;
    if BadFrom(h, v) {
      var a, w :| Reaches(Holds(h), v.id, a) && a in h && w in Children(h[a]) && Bad(h, w);
      var ja := UnfoldsWhereReached(h, v.id, a, j);
      UndefinedIsNotBad(h);
      var jw := ChildUnfolds(h, a, w, ja);
      NotBadHere(h, w, jw);
    }
  }

  lemma UndefinedIsNotBad(h: Heap)
    ensures !Bad(h, Undefined)
  {
  }

  lemma NotBadHere(h: Heap, v: Value, j: Json)
    requires Unfolds(h, v, j)
    ensures !Bad(h, v)
  {
  }

  /** A graph is rejected exactly when a cycle or a non-JSON value can be reached, and
      a cycle is reported only when there is one. Shared acyclic objects are accepted. */
  lemma RejectsExactly(h: Heap, v: Value, path: Path)
    requires ValidHeap(h) && ValidValue(h, v)
    ensures var r := Project(h, v, path, {});
            && (r.Failed? <==> CycleFrom(h, v) || BadFrom(h, v))
            && (r.Failed? && r.problem == IsCycle ==> CycleFrom(h, v))
            && (r.Failed? && r.problem != IsCycle ==> BadFrom(h, v))
            && (r.Dropped? <==> v.Undefined?)
  {
    KeptUnfolds(h, v, path, {});
    FailureIsReal(h, v, path, {}, 0);
    UndefinedIsNotBad(h);
    hide Project, Unfolds, Bad;
    var r := Project(h, v, path, {});
    if r.Kept? {
      UnfoldingHasNoCycle(h, v, r.json);
      UnfoldingIsNotBad(h, v, r.json);
    }
  }

  // ---- The projection as the program runs it ----

  /** `seen` holds the objects on the current path; it is restored on the way out
      unless an error is thrown. */
  class Projector {
    const heap: Heap
    var seen: set<Id>

    constructor (heap: Heap)
      ensures this.heap == heap && seen == {}
    {
      this.heap, seen := heap, {};
    }

    method ProjectValue(v: Value, path: Path) returns (r: Projected)
      requires ValidHeap(heap) && ValidValue(heap, v) && seen <= heap.Keys
      modifies this
      ensures r == Project(heap, v, path, old(seen))
      ensures !r.Failed? ==> seen == old(seen)
      decreases |heap.Keys - seen|, 0
    {
      match v {
        case Undefined => return Dropped;
        case Scalar(json) => return Kept(json);
        case NonFinite => return Failed(IsNonFinite, path);
        case NonJson => return Failed(IsNonJson, path);
        case Ref(id) =>
          assert ValidNode(heap, heap[id]);
          match heap[id] {
            case DateNode => return Failed(IsDate, path);
            case CollectionNode => return Failed(IsCollection, path);
            case OtherNode => return Failed(IsNonPlain, path);
            case ArrayNode(entries, symbolKeys) =>
              if symbolKeys { return Failed(HasSymbolKey, path); }
              if id in seen { return Failed(IsCycle, path); }
              LessLeft(heap.Keys, seen, id);
              seen := seen + {id};
              var items := ProjectArray(entries, path);
              if items.ItemsFailed? { return Failed(items.problem, items.path); }
              seen := seen - {id};
              return Kept(Array(items.items));
            case PlainNode(members, symbolKeys) =>
              if symbolKeys { return Failed(HasSymbolKey, path); }
              if id in seen { return Failed(IsCycle, path); }
              LessLeft(heap.Keys, seen, id);
              seen := seen + {id};
              var projected := ProjectObject(members, path);
              if projected.MembersFailed? { return Failed(projected.problem, projected.path); }
              seen := seen - {id};
              return Kept(Object(projected.members));
          }
      }
    }

    method ProjectArray(entries: seq<Value>, path: Path) returns (r: Items)
      requires ValidHeap(heap) && (forall i :: 0 <= i < |entries| ==> ValidValue(heap, entries[i])) && seen <= heap.Keys
      modifies this
      ensures r == ProjectEntries(heap, entries, path, old(seen))
      ensures r.Items? ==> seen == old(seen)
      decreases |heap.Keys - seen|, |entries| + 1
    {
      var items: seq<Json> := [];
      for i := 0 to |entries|
        invariant ProjectEntries(heap, entries[..i], path, old(seen)) == Items(items) && seen == old(seen)
      {
        assert entries[..i + 1][..i] == entries[..i];
        var child := ProjectValue(entries[i], path + [Index(i)]);
        match child {
          case Dropped =>
          case Kept(json) => items := items + [json];
          case Failed(problem, at) =>
            EntryFails(heap, entries, i + 1, path, old(seen));
            return ItemsFailed(problem, at);
        }
      }
      assert entries[..|entries|] == entries;
      return Items(items);
    }

    method ProjectObject(members: seq<Entry>, path: Path) returns (r: Members)
      requires ValidHeap(heap) && (forall i :: 0 <= i < |members| ==> ValidValue(heap, members[i].value)) && seen <= heap.Keys
      modifies this
      ensures r == ProjectMembers(heap, members, path, old(seen))
      ensures r.Members? ==> seen == old(seen)
      decreases |heap.Keys - seen|, |members| + 1
    {
      var projected: seq<Member> := [];
      for i := 0 to |members|
        invariant ProjectMembers(heap, members[..i], path, old(seen)) == Members(projected) && seen == old(seen)
      {
        assert members[..i + 1][..i] == members[..i];
        var child := ProjectValue(members[i].value, path + [Key(members[i].key)]);
        match child {
          case Dropped =>
          case Kept(json) => projected := projected + [Member(members[i].key, json)];
          case Failed(problem, at) =>
            MemberFails(heap, members, i + 1, path, old(seen));
            return MembersFailed(problem, at);
        }
      }
      assert members[..|members|] == members;
      return Members(projected);
    }
  }

  /** The first error is the one reported. */
  lemma {:induction false} EntryFails(h: Heap, entries: seq<Value>, k: nat, path: Path, seen: set<Id>)
    requires ValidHeap(h) && (forall i :: 0 <= i < |entries| ==> ValidValue(h, entries[i])) && seen <= h.Keys
    requires k <= |entries| && ProjectEntries(h, entries[..k], path, seen).ItemsFailed?
    ensures ProjectEntries(h, entries, path, seen) == ProjectEntries(h, entries[..k], path, seen)
    decreases |entries|
  {
    if k == |entries| {
      assert entries[..k] == entries;
    } else {
      assert entries[..|entries| - 1][..k] == entries[..k];
      EntryFails(h, entries[..|entries| - 1], k, path, seen);
    }
  }

  lemma {:induction false} MemberFails(h: Heap, members: seq<Entry>, k: nat, path: Path, seen: set<Id>)
    requires ValidHeap(h) && (forall i :: 0 <= i < |members| ==> ValidValue(h, members[i].value)) && seen <= h.Keys
    requires k <= |members| && ProjectMembers(h, members[..k], path, seen).MembersFailed?
    ensures ProjectMembers(h, members, path, seen) == ProjectMembers(h, members[..k], path, seen)
    decreases |members|
  {
    if k == |members| {
      assert members[..k] == members;
    } else {
      assert members[..|members| - 1][..k] == members[..k];
      MemberFails(h, members[..|members| - 1], k, path, seen);
    }
  }
}
