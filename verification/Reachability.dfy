/** Paths in a graph given by its edges. */
module Reachability {

  ghost predicate IsPath<T>(edge: (T, T) -> bool, path: seq<T>) {
    path != [] && forall i :: 0 <= i < |path| - 1 ==> edge(path[i], path[i + 1])
  }

  /** Following edges from `a` leads to `b`, in zero or more steps. */
  ghost predicate Reaches<T(!new)>(edge: (T, T) -> bool, a: T, b: T) {
    exists path :: IsPath(edge, path) && path[0] == a && path[|path| - 1] == b
  }

  lemma ReachesSelf<T(!new)>(edge: (T, T) -> bool, a: T)
    ensures Reaches(edge, a, a)
  {
    assert IsPath(edge, [a]);
  }

  lemma ReachesNext<T(!new)>(edge: (T, T) -> bool, a: T, b: T, c: T)
    requires Reaches(edge, a, b) && edge(b, c)
    ensures Reaches(edge, a, c)
  {
    var path :| IsPath(edge, path) && path[0] == a && path[|path| - 1] == b;
    assert IsPath(edge, path + [c]);
  }

  lemma ReachesAfter<T(!new)>(edge: (T, T) -> bool, a: T, b: T, c: T)
    requires edge(a, b) && Reaches(edge, b, c)
    ensures Reaches(edge, a, c)
  {
    var path :| IsPath(edge, path) && path[0] == b && path[|path| - 1] == c;
    assert IsPath(edge, [a] + path);
  }

  /** The edge from `a` to `b` closes a cycle. */
  ghost predicate OnCycle<T(!new)>(edge: (T, T) -> bool, a: T, b: T) {
    edge(a, b) && Reaches(edge, b, a)
  }
}
