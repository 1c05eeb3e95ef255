/** Where the projection of json-safe.ts stops, and what it says is wrong there. */
module JsonFailures {
  import opened JsonValues
  import opened JsonProjection

  /** Nothing to project, or a value that unfolds to a tree. */
  ghost predicate Sound(h: Heap, v: Value) {
    v.Undefined? || exists j :: Unfolds(h, v, j)
  }

  /** What is wrong with the value itself, given the objects that it lies in. */
  ghost predicate Wrong(h: Heap, v: Value, problem: Problem, above: set<Id>) {
    match problem
    case IsNonFinite => v == NonFinite
    case IsNonJson => v == NonJson
    case IsDate => v.Ref? && v.id in h && h[v.id] == DateNode
    case IsCollection => v.Ref? && v.id in h && h[v.id] == CollectionNode
    case IsNonPlain => v.Ref? && v.id in h && h[v.id] == OtherNode
    case HasSymbolKey => v.Ref? && v.id in h && (h[v.id].ArrayNode? || h[v.id].PlainNode?) && h[v.id].symbolKeys
    case IsCycle => v.Ref? && v.id in h && (h[v.id].ArrayNode? || h[v.id].PlainNode?) && !h[v.id].symbolKeys && v.id in above
  }

  /** The steps lead to something wrong, and everything before it on the way is sound. */
  ghost predicate FirstFault(h: Heap, v: Value, steps: Path, problem: Problem, above: set<Id>)
    decreases |steps|
  {
    if steps == [] then Wrong(h, v, problem, above)
    else
      && v.Ref? && v.id in h && v.id !in above
      && (exists i :: InFaultyEntry(h, h[v.id], i, steps, problem, above + {v.id}))
  }

  /** The first step leads to entry or member i, and those before it are sound. */
  ghost predicate InFaultyEntry(h: Heap, node: Node, i: nat, steps: Path, problem: Problem, above: set<Id>)
    requires steps != []
    decreases |steps|, 0
  {
    match node
    case ArrayNode(entries, symbolKeys) =>
      && !symbolKeys && i < |entries| && steps[0] == Index(i)
      && (forall k :: 0 <= k < i ==> Sound(h, entries[k])) && FirstFault(h, entries[i], steps[1..], problem, above)
    case PlainNode(members, symbolKeys) =>
      && !symbolKeys && i < |members| && steps[0] == Key(members[i].key)
      && (forall k :: 0 <= k < i ==> Sound(h, members[k].value)) && FirstFault(h, members[i].value, steps[1..], problem, above)
    case _ => false
  }

  predicate HasParts(h: Heap, v: Value) {
    v.Ref? && v.id in h && (h[v.id].ArrayNode? || h[v.id].PlainNode?) && !h[v.id].symbolKeys
  }

  lemma FaultHere(h: Heap, v: Value, path: Path, seen: set<Id>)
    requires ValidHeap(h) && ValidValue(h, v) && seen <= h.Keys && Project(h, v, path, seen).Failed?
    requires !HasParts(h, v) || v.id in seen
    ensures Project(h, v, path, seen).path == path && Wrong(h, v, Project(h, v, path, seen).problem, seen)
  {
    hide ProjectEntries, ProjectMembers;
  }

  lemma {:induction false} FaultOf(h: Heap, v: Value, path: Path, seen: set<Id>) returns (steps: Path)
    requires ValidHeap(h) && ValidValue(h, v) && seen <= h.Keys && Project(h, v, path, seen).Failed?
    ensures Project(h, v, path, seen).path == path + steps && FirstFault(h, v, steps, Project(h, v, path, seen).problem, seen)
    decreases |h.Keys - seen|, 0
  {
    hide ProjectEntries, ProjectMembers, Sound, Wrong, InFaultyEntry;
    if !HasParts(h, v) || v.id in seen {
      steps := [];
      FaultHere(h, v, path, seen);
    } else {
      assert ValidNode(h, h[v.id]);
      LessLeft(h.Keys, seen, v.id);
      var i: nat;
      if h[v.id].ArrayNode? {
        i, steps := FaultOfEntries(h, h[v.id].entries, path, seen + {v.id});
        steps := [Index(i)] + steps;
      } else {
        i, steps := FaultOfMembers(h, h[v.id].members, path, seen + {v.id});
        steps := [Key(h[v.id].members[i].key)] + steps;
      }
      hide FirstFault, Project;
      FaultInPart(h, v, i, steps, Project(h, v, path, seen).problem, seen);
    }
  }

  lemma FaultInPart(h: Heap, v: Value, i: nat, steps: Path, problem: Problem, seen: set<Id>)
    requires HasParts(h, v) && v.id !in seen && steps != []
    requires h[v.id].ArrayNode? ==>
               && i < |h[v.id].entries| && steps[0] == Index(i) && FirstFault(h, h[v.id].entries[i], steps[1..], problem, seen + {v.id})
               && forall k :: 0 <= k < i ==> Sound(h, h[v.id].entries[k])
    requires h[v.id].PlainNode? ==>
               && i < |h[v.id].members| && steps[0] == Key(h[v.id].members[i].key) && FirstFault(h, h[v.id].members[i].value, steps[1..], problem, seen + {v.id})
               && forall k :: 0 <= k < i ==> Sound(h, h[v.id].members[k].value)
    ensures FirstFault(h, v, steps, problem, seen)
  {
    hide Sound;
    assert InFaultyEntry(h, h[v.id], i, steps, problem, seen + {v.id});
  }

  lemma {:induction false} FaultOfEntries(h: Heap, entries: seq<Value>, path: Path, seen: set<Id>) returns (i: nat, steps: Path)
    requires ValidHeap(h) && (forall i :: 0 <= i < |entries| ==> ValidValue(h, entries[i])) && seen <= h.Keys
    requires ProjectEntries(h, entries, path, seen).ItemsFailed?
    ensures i < |entries| && (forall k :: 0 <= k < i ==> Sound(h, entries[k]))
    ensures var r := ProjectEntries(h, entries, path, seen);
            r.path == path + ([Index(i)] + steps) && FirstFault(h, entries[i], steps, r.problem, seen)
    decreases |h.Keys - seen|, |entries| + 1
  {
    hide FirstFault, Sound;
    var n := |entries| - 1;
    if ProjectEntries(h, entries[..n], path, seen).ItemsFailed? {
      i, steps := FaultOfEntries(h, entries[..n], path, seen);
    } else {
      i := n;
      steps := FaultOf(h, entries[n], path + [Index(n)], seen);
      EntriesAreSound(h, entries[..n], path, seen);
    }
  }

  lemma {:induction false} EntriesAreSound(h: Heap, entries: seq<Value>, path: Path, seen: set<Id>)
    requires ValidHeap(h) && (forall i :: 0 <= i < |entries| ==> ValidValue(h, entries[i])) && seen <= h.Keys
    requires ProjectEntries(h, entries, path, seen).Items?
    ensures forall k :: 0 <= k < |entries| ==> Sound(h, entries[k])
    decreases |entries|
  {
    hide Unfolds, Project;
    if entries != [] {
      var n := |entries| - 1;
      EntriesAreSound(h, entries[..n], path, seen);
      KeptUnfolds(h, entries[n], path + [Index(n)], seen);
    }
  }

  lemma {:induction false} FaultOfMembers(h: Heap, members: seq<Entry>, path: Path, seen: set<Id>) returns (i: nat, steps: Path)
    requires ValidHeap(h) && (forall i :: 0 <= i < |members| ==> ValidValue(h, members[i].value)) && seen <= h.Keys
    requires ProjectMembers(h, members, path, seen).MembersFailed?
    ensures i < |members| && (forall k :: 0 <= k < i ==> Sound(h, members[k].value))
    ensures var r := ProjectMembers(h, members, path, seen);
            r.path == path + ([Key(members[i].key)] + steps) && FirstFault(h, members[i].value, steps, r.problem, seen)
    decreases |h.Keys - seen|, |members| + 1
  {
    hide FirstFault, Sound;
    var n := |members| - 1;
    if ProjectMembers(h, members[..n], path, seen).MembersFailed? {
      i, steps := FaultOfMembers(h, members[..n], path, seen);
    } else {
      i := n;
      steps := FaultOf(h, members[n].value, path + [Key(members[n].key)], seen);
      MembersAreSound(h, members[..n], path, seen);
    }
  }

  lemma {:induction false} MembersAreSound(h: Heap, members: seq<Entry>, path: Path, seen: set<Id>)
    requires ValidHeap(h) && (forall i :: 0 <= i < |members| ==> ValidValue(h, members[i].value)) && seen <= h.Keys
    requires ProjectMembers(h, members, path, seen).Members?
    ensures forall k :: 0 <= k < |members| ==> Sound(h, members[k].value)
    decreases |members|
  {
    hide Unfolds, Project;
    if members != [] {
      var n := |members| - 1;
      MembersAreSound(h, members[..n], path, seen);
      KeptUnfolds(h, members[n].value, path + [Key(members[n].key)], seen);
    }
  }

  /** A failed projection names the first thing that is wrong, in the order in which
      entries and members are listed, by its kind and by the path that leads to it. */
  lemma FailsAtFirstFault(h: Heap, v: Value, path: Path) returns (steps: Path)
    requires ValidHeap(h) && ValidValue(h, v) && Project(h, v, path, {}).Failed?
    ensures Project(h, v, path, {}).path == path + steps && FirstFault(h, v, steps, Project(h, v, path, {}).problem, {})
  {
    hide FirstFault, Project;
    steps := FaultOf(h, v, path, {});
  }
}
