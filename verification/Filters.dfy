/** Array.prototype.filter: the elements that pass a test, in their order. */
module Filters {

  function Filter<T(!new)>(keep: T -> bool, items: seq<T>): (rest: seq<T>)
    ensures forall x :: x in rest <==> x in items && keep(x)
  {
    if items == [] then [] else (if keep(items[0]) then [items[0]] else []) + Filter(keep, items[1..])
  }

  lemma {:induction false} FilterConcat<T(!new)>(keep: T -> bool, a: seq<T>, b: seq<T>)
    ensures Filter(keep, a + b) == Filter(keep, a) + Filter(keep, b)
  {
    if a == [] {
      assert a + b == b;
    } else {
      assert (a + b)[1..] == a[1..] + b;
      FilterConcat(keep, a[1..], b);
    }
  }

  lemma FilterOne<T(!new)>(keep: T -> bool, x: T)
    ensures Filter(keep, [x]) == if keep(x) then [x] else []
  {
    assert [x][1..] == [];
  }

  /** Filtering twice is filtering by both tests. */
  lemma {:induction false} FilterTwice<T(!new)>(keep: T -> bool, also: T -> bool, both: T -> bool, items: seq<T>)
    requires forall x :: both(x) <==> keep(x) && also(x)
    ensures Filter(also, Filter(keep, items)) == Filter(both, items)
  {
    if items != [] {
      FilterTwice(keep, also, both, items[1..]);
      FilterConcat(also, if keep(items[0]) then [items[0]] else [], Filter(keep, items[1..]));
      FilterOne(also, items[0]);
    }
  }

  lemma {:induction false} FilterAll<T(!new)>(keep: T -> bool, items: seq<T>)
    requires forall x :: x in items ==> keep(x)
    ensures Filter(keep, items) == items
  {
    if items != [] {
      FilterAll(keep, items[1..]);
    }
  }

  lemma {:induction false} FilterNone<T(!new)>(keep: T -> bool, items: seq<T>)
    requires forall x :: x in items ==> !keep(x)
    ensures Filter(keep, items) == []
  {
    if items != [] {
      FilterNone(keep, items[1..]);
    }
  }

  lemma {:induction false} FilterCounts<T(!new)>(keep: T -> bool, items: seq<T>, x: T)
    ensures multiset(Filter(keep, items))[x] == if keep(x) then multiset(items)[x] else 0
  {
    if items != [] {
      FilterCounts(keep, items[1..], x);
      assert items == [items[0]] + items[1..];
    }
  }

  /** Filtering a rearranged list gives a rearrangement of the filtered list. */
  lemma FilterPermutes<T(!new)>(keep: T -> bool, a: seq<T>, b: seq<T>)
    requires multiset(a) == multiset(b)
    ensures multiset(Filter(keep, a)) == multiset(Filter(keep, b))
  {
    forall x
      ensures multiset(Filter(keep, a))[x] == multiset(Filter(keep, b))[x]
    {
      FilterCounts(keep, a, x);
      FilterCounts(keep, b, x);
    }
  }

  // ---- First occurrences ----

  function HasOtherKey<T(!new)>(key: T -> string, k: string): T -> bool {
    (x: T) => key(x) != k
  }

  /** Every element, unless one before it has the same key. */
  function Firsts<T(!new)>(key: T -> string, items: seq<T>): seq<T> {
    if items == [] then [] else [items[0]] + Filter(HasOtherKey(key, key(items[0])), Firsts(key, items[1..]))
  }

  ghost predicate HasKey<T(!new)>(key: T -> string, items: seq<T>, k: string) {
    exists i :: 0 <= i < |items| && key(items[i]) == k
  }

  lemma HasKeyCons<T(!new)>(key: T -> string, items: seq<T>, k: string)
    requires items != []
    ensures HasKey(key, items, k) <==> key(items[0]) == k || HasKey(key, items[1..], k)
  {
    if i :| 0 <= i < |items| && key(items[i]) == k {
      assert i > 0 ==> key(items[1..][i - 1]) == k;
    }
    if i :| 0 <= i < |items[1..]| && key(items[1..][i]) == k {
      assert key(items[i + 1]) == k;
    }
  }

  lemma FirstsCons<T(!new)>(key: T -> string, x: T, rest: seq<T>)
    ensures Firsts(key, [x] + rest) == [x] + Filter(HasOtherKey(key, key(x)), Firsts(key, rest))
  {
    assert ([x] + rest)[1..] == rest;
  }

  lemma {:induction false} FirstsNew<T(!new)>(key: T -> string, items: seq<T>, last: T)
    requires !HasKey(key, items, key(last))
    ensures Firsts(key, items + [last]) == Firsts(key, items) + [last]
  {
    if items == [] {
      assert [] + [last] == [last] && [last] + [] == [last];
      FirstsCons(key, last, []);
    } else {
      hide Firsts, HasKey, Filter;
      var x, rest := items[0], items[1..];
      HasKeyCons(key, items, key(last));
      FirstsNew(key, rest, last);
      AddToFirsts(key, x, rest, [last], last);
      assert items == [x] + rest && items + [last] == [x] + (rest + [last]);
      FirstsCons(key, x, rest);
    }
  }

  lemma {:induction false} FirstsOld<T(!new)>(key: T -> string, items: seq<T>, last: T)
    requires HasKey(key, items, key(last))
    ensures Firsts(key, items + [last]) == Firsts(key, items)
  {
    hide Firsts, Filter;
    var x, rest := items[0], items[1..];
    HasKeyCons(key, items, key(last));
    hide HasKey;
    assert items == [x] + rest && items + [last] == [x] + (rest + [last]);
    FirstsCons(key, x, rest);
    if HasKey(key, rest, key(last)) {
      FirstsOld(key, rest, last);
      FirstsCons(key, x, rest + [last]);
    } else {
      FirstsNew(key, rest, last);
      AddToFirsts(key, x, rest, [last], last);
    }
  }

  lemma AddToFirsts<T(!new)>(key: T -> string, x: T, rest: seq<T>, more: seq<T>, last: T)
    requires more == [last] && Firsts(key, rest + more) == Firsts(key, rest) + more
    ensures Firsts(key, [x] + (rest + more)) == [x] + Filter(HasOtherKey(key, key(x)), Firsts(key, rest)) + if key(x) == key(last) then [] else [last]
  {
    hide Firsts, Filter;
    FirstsCons(key, x, rest + more);
    FilterConcat(HasOtherKey(key, key(x)), Firsts(key, rest), more);
    FilterOne(HasOtherKey(key, key(x)), last);
  }
}
