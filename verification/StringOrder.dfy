/** The default order of Array.prototype.sort on strings, and sorting by it. */
module StringOrder {

  predicate LessEq(a: string, b: string) {
    a == [] || (b != [] && (a[0] < b[0] || (a[0] == b[0] && LessEq(a[1..], b[1..]))))
  }

  lemma {:induction false} Total(a: string, b: string)
    ensures LessEq(a, b) || LessEq(b, a)
  {
    if a != [] && b != [] && a[0] == b[0] {
      Total(a[1..], b[1..]);
    }
  }

  lemma {:induction false} Antisymmetric(a: string, b: string)
    requires LessEq(a, b) && LessEq(b, a)
    ensures a == b
  {
    if a != [] {
      Antisymmetric(a[1..], b[1..]);
      assert a == [a[0]] + a[1..] && b == [b[0]] + b[1..];
    }
  }

  lemma {:induction false} Transitive(a: string, b: string, c: string)
    requires LessEq(a, b) && LessEq(b, c)
    ensures LessEq(a, c)
  {
    if a != [] && a[0] == b[0] == c[0] {
      Transitive(a[1..], b[1..], c[1..]);
    }
  }

  ghost predicate Sorted(keys: seq<string>) {
    forall i, j :: 0 <= i < j < |keys| ==> LessEq(keys[i], keys[j])
  }

  function Insert(key: string, sorted: seq<string>): seq<string> {
    if sorted == [] || LessEq(key, sorted[0]) then [key] + sorted
    else [sorted[0]] + Insert(key, sorted[1..])
  }

  function Sort(keys: seq<string>): seq<string> {
    if keys == [] then [] else Insert(keys[0], Sort(keys[1..]))
  }

  lemma {:induction false} InsertPermutes(key: string, sorted: seq<string>)
    ensures multiset(Insert(key, sorted)) == multiset(sorted) + multiset{key}
  {
    hide LessEq;
    if sorted != [] {
      InsertPermutes(key, sorted[1..]);
      assert sorted == [sorted[0]] + sorted[1..];
    }
  }

  lemma {:induction false} InsertSorts(key: string, sorted: seq<string>)
    requires Sorted(sorted)
    ensures Sorted(Insert(key, sorted))
  {
    hide LessEq;
    if sorted == [] {
    } else if LessEq(key, sorted[0]) {
      forall j | 0 <= j < |sorted|
        ensures LessEq(key, sorted[j])
      {
        if j > 0 {
          Transitive(key, sorted[0], sorted[j]);
        }
      }
    } else {
      Total(key, sorted[0]);
      InsertSorts(key, sorted[1..]);
      InsertPermutes(key, sorted[1..]);
      var rest := Insert(key, sorted[1..]);
      forall j | 0 <= j < |rest|
        ensures LessEq(sorted[0], rest[j])
      {
        assert rest[j] in multiset(rest);
        assert rest[j] == key || rest[j] in sorted[1..];
      }
    }
  }

  lemma {:induction false} SortIsSort(keys: seq<string>)
    ensures Sorted(Sort(keys)) && multiset(Sort(keys)) == multiset(keys)
  {
    if keys != [] {
      SortIsSort(keys[1..]);
      InsertSorts(keys[0], Sort(keys[1..]));
      InsertPermutes(keys[0], Sort(keys[1..]));
      assert keys == [keys[0]] + keys[1..];
    }
  }

  lemma Reflexive(a: string)
    ensures LessEq(a, a)
  {
    Total(a, a);
  }

  lemma FirstIsLeast(keys: seq<string>, key: string)
    requires Sorted(keys) && key in multiset(keys)
    ensures LessEq(keys[0], key)
  {
    hide LessEq;
    assert key in keys;
    Reflexive(key);
  }

  lemma DropFirst(keys: seq<string>)
    requires keys != []
    ensures multiset(keys) == multiset{keys[0]} + multiset(keys[1..])
  {
    assert keys == [keys[0]] + keys[1..];
  }

  lemma SameFirst(a: seq<string>, b: seq<string>)
    requires Sorted(a) && Sorted(b) && multiset(a) == multiset(b) && a != []
    ensures b != [] && a[0] == b[0]
  {
    hide LessEq, Sorted;
    DropFirst(a);
    assert a[0] in multiset(b);
    assert b != [];
    DropFirst(b);
    assert b[0] in multiset(a);
    FirstIsLeast(a, b[0]);
    FirstIsLeast(b, a[0]);
    Antisymmetric(a[0], b[0]);
  }

  lemma SortedTail(keys: seq<string>)
    requires Sorted(keys) && keys != []
    ensures Sorted(keys[1..])
  {
    hide LessEq;
  }

  /** A list has only one sorted arrangement. */
  lemma {:induction false} SortedIsUnique(a: seq<string>, b: seq<string>)
    requires Sorted(a) && Sorted(b) && multiset(a) == multiset(b)
    ensures a == b
  {
    hide LessEq, Sorted;
    if a == [] {
      if b != [] {
        SameFirst(b, a);
      }
    } else {
      SameFirst(a, b);
      DropFirst(a);
      DropFirst(b);
      SortedTail(a);
      SortedTail(b);
      assert multiset(a[1..]) == multiset(a) - multiset{a[0]} && multiset(b[1..]) == multiset(b) - multiset{a[0]};
      SortedIsUnique(a[1..], b[1..]);
      assert a == [a[0]] + a[1..] && b == [b[0]] + b[1..];
    }
  }

  /** Sorting forgets the order it is given. */
  lemma SortIgnoresOrder(a: seq<string>, b: seq<string>)
    requires multiset(a) == multiset(b)
    ensures Sort(a) == Sort(b)
  {
    SortIsSort(a);
    SortIsSort(b);
    SortedIsUnique(Sort(a), Sort(b));
  }

  ghost predicate Distinct(keys: seq<string>) {
    forall i, j :: 0 <= i < j < |keys| ==> keys[i] != keys[j]
  }

  lemma {:induction false} DistinctCount(keys: seq<string>, key: string)
    requires Distinct(keys)
    ensures multiset(keys)[key] == if key in keys then 1 else 0
  {
    if keys != [] {
      DropFirst(keys);
      DistinctCount(keys[1..], key);
    }
  }

  function KeySet(keys: seq<string>): set<string> {
    set k | k in keys
  }

  lemma {:induction false} DistinctSize(keys: seq<string>)
    requires Distinct(keys)
    ensures |KeySet(keys)| == |keys|
  {
    if keys != [] {
      DistinctSize(keys[1..]);
      assert KeySet(keys) == {keys[0]} + KeySet(keys[1..]);
    }
  }

  lemma SameKeysSameMultiset(a: seq<string>, b: seq<string>)
    requires Distinct(a) && Distinct(b) && KeySet(a) == KeySet(b)
    ensures multiset(a) == multiset(b)
  {
    forall key
      ensures multiset(a)[key] == multiset(b)[key]
    {
      DistinctCount(a, key);
      DistinctCount(b, key);
      assert key in a <==> key in KeySet(a);
      assert key in b <==> key in KeySet(b);
    }
  }

  /** Two lists of distinct keys, as long as each other, one containing the other. */
  lemma ContainedKeysSort(a: seq<string>, b: seq<string>)
    requires Distinct(a) && Distinct(b) && |a| == |b| && forall k :: k in a ==> k in b
    ensures Sort(a) == Sort(b) && forall k :: k in b ==> k in a
  {
    DistinctSize(a);
    DistinctSize(b);
    SubsetOfSameSize(KeySet(a), KeySet(b));
    SameKeysSameMultiset(a, b);
    SortIgnoresOrder(a, b);
    forall k | k in b
      ensures k in a
    {
      assert k in KeySet(b);
    }
  }

  lemma SubsetOfSameSize(a: set<string>, b: set<string>)
    requires a <= b && |a| == |b|
    ensures a == b
  {
    assert b == a + (b - a);
    assert |b - a| == 0;
  }

  // ---- The order by positions ----

  /** The first is a prefix of the second, or smaller where they first differ. */
  ghost predicate Ascends(a: string, b: string) {
    a <= b || exists n :: 0 <= n < |a| && n < |b| && a[..n] == b[..n] && a[n] < b[n]
  }

  lemma {:induction false} LessEqIsAscending(a: string, b: string)
    ensures LessEq(a, b) <==> Ascends(a, b)
  {
    if a != [] && b != [] && a[0] == b[0] {
      LessEqIsAscending(a[1..], b[1..]);
      assert a == [a[0]] + a[1..] && b == [b[0]] + b[1..];
      if n :| 0 <= n < |a[1..]| && n < |b[1..]| && a[1..][..n] == b[1..][..n] && a[1..][n] < b[1..][n] {
        assert a[..n + 1] == [a[0]] + a[1..][..n] && b[..n + 1] == [b[0]] + b[1..][..n];
        assert a[n + 1] < b[n + 1];
      }
      if n :| 0 <= n < |a| && n < |b| && a[..n] == b[..n] && a[n] < b[n] {
        assert a[1..][..n - 1] == a[..n][1..] && b[1..][..n - 1] == b[..n][1..];
        assert a[1..][n - 1] < b[1..][n - 1];
      }
    } else if a != [] && b != [] && a[0] < b[0] {
      assert a[..0] == b[..0];
    }
  }

  /** Sorting puts every key behind those that are prefixes of it or smaller where they
      first differ from it. */
  lemma SortAscends(keys: seq<string>)
    ensures multiset(Sort(keys)) == multiset(keys)
    ensures forall i, j :: 0 <= i < j < |Sort(keys)| ==> Ascends(Sort(keys)[i], Sort(keys)[j])
  {
    SortIsSort(keys);
    hide LessEq, Sort;
    var sorted := Sort(keys);
    forall i, j | 0 <= i < j < |sorted|
      ensures Ascends(sorted[i], sorted[j])
    {
      LessEqIsAscending(sorted[i], sorted[j]);
    }
  }

  lemma TwiceCounted(keys: seq<string>, i: nat, j: nat)
    requires i < j < |keys| && keys[i] == keys[j]
    ensures multiset(keys)[keys[i]] >= 2
  {
    assert keys == keys[..i] + [keys[i]] + keys[i + 1..j] + [keys[j]] + keys[j + 1..];
  }

  lemma SortKeepsDistinct(keys: seq<string>)
    requires Distinct(keys)
    ensures Distinct(Sort(keys))
  {
    hide Sort;
    SortAscends(keys);
    var sorted := Sort(keys);
    forall i, j | 0 <= i < j < |sorted|
      ensures sorted[i] != sorted[j]
    {
      if sorted[i] == sorted[j] {
        TwiceCounted(sorted, i, j);
        DistinctCount(keys, sorted[i]);
      }
    }
  }
}
