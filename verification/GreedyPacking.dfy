/** First-fit packing in a fixed order: keep an element whenever it still fits
    with everything kept before it. */
module GreedyPacking {

  /** Which elements first-fit keeps, one flag per weight. */
  function Pick(weights: seq<nat>, capacity: int): (kept: seq<bool>)
    ensures |kept| == |weights|
  {
    if weights == [] then []
    else if weights[0] <= capacity then [true] + Pick(weights[1..], capacity - weights[0])
    else [false] + Pick(weights[1..], capacity)
  }

  /** Total weight of the kept elements. */
  function Load(weights: seq<nat>, kept: seq<bool>): nat
    requires |kept| == |weights|
  {
    if weights == [] then 0 else (if kept[0] then weights[0] else 0) + Load(weights[1..], kept[1..])
  }

  function Selected<T>(items: seq<T>, kept: seq<bool>): seq<T>
    requires |kept| == |items|
  {
    if items == [] then [] else (if kept[0] then [items[0]] else []) + Selected(items[1..], kept[1..])
  }

  lemma {:induction false} PickFits(weights: seq<nat>, capacity: nat)
    ensures Load(weights, Pick(weights, capacity)) <= capacity
  {
    if weights != [] {
      if weights[0] <= capacity {
        PickFits(weights[1..], capacity - weights[0]);
      } else {
        PickFits(weights[1..], capacity);
      }
    }
  }

  /** At the first difference, if there is one, `a` keeps and `b` does not. */
  ghost predicate LexAtLeast(a: seq<bool>, b: seq<bool>)
    requires |a| == |b|
  {
    a == [] || (a[0] && !b[0]) || (a[0] == b[0] && LexAtLeast(a[1..], b[1..]))
  }

  /** First-fit is the greatest cap-respecting selection in priority order. */
  lemma {:induction false} PickIsLexGreatest(weights: seq<nat>, capacity: int, other: seq<bool>)
    requires |other| == |weights| && Load(weights, other) <= capacity
    ensures LexAtLeast(Pick(weights, capacity), other)
  {
    if weights != [] && Pick(weights, capacity)[0] == other[0] {
      PickIsLexGreatest(weights[1..], if other[0] then capacity - weights[0] else capacity, other[1..]);
    }
  }

  // ---- Weights that never decrease: first-fit keeps a prefix ----

  ghost predicate NonDecreasing(weights: seq<nat>) {
    forall i, j :: 0 <= i < j < |weights| ==> weights[i] <= weights[j]
  }

  function PrefixLength(weights: seq<nat>, capacity: int): (n: nat)
    ensures n <= |weights|
  {
    if weights == [] || weights[0] > capacity then 0 else 1 + PrefixLength(weights[1..], capacity - weights[0])
  }

  lemma {:induction false} PickPrefix(weights: seq<nat>, capacity: int)
    requires NonDecreasing(weights)
    ensures forall i :: 0 <= i < |weights| ==> (Pick(weights, capacity)[i] <==> i < PrefixLength(weights, capacity))
  {
    if weights != [] {
      if weights[0] <= capacity {
        PickPrefix(weights[1..], capacity - weights[0]);
      } else {
        PickTooSmall(weights[1..], capacity);
      }
    }
  }

  lemma {:induction false} PickTooSmall(weights: seq<nat>, capacity: int)
    requires forall i :: 0 <= i < |weights| ==> weights[i] > capacity
    ensures forall i :: 0 <= i < |weights| ==> !Pick(weights, capacity)[i]
  {
    if weights != [] {
      PickTooSmall(weights[1..], capacity);
    }
  }

  lemma {:induction false} PrefixLengthMonotone(weights: seq<nat>, less: int, more: int)
    requires less <= more
    ensures PrefixLength(weights, less) <= PrefixLength(weights, more)
  {
    if weights != [] && weights[0] <= less {
      PrefixLengthMonotone(weights[1..], less - weights[0], more - weights[0]);
    }
  }

  /** First-fit on the front of the list does not depend on what follows. */
  lemma {:induction false} PickFront(front: seq<nat>, back: seq<nat>, capacity: int)
    ensures Pick(front + back, capacity)[..|front|] == Pick(front, capacity)
  {
    if front != [] {
      assert (front + back)[1..] == front[1..] + back;
      PickFront(front[1..], back, if front[0] <= capacity then capacity - front[0] else capacity);
    }
  }

  // ---- First-fit behind a front that fits ----

  function Total(weights: seq<nat>): nat {
    if weights == [] then 0 else weights[0] + Total(weights[1..])
  }

  function Flags(n: nat): (flags: seq<bool>) {
    seq(n, _ => true)
  }

  lemma {:induction false} PickBehind(front: seq<nat>, back: seq<nat>, room: int)
    requires Total(front) <= room
    ensures Pick(front + back, room) == Flags(|front|) + Pick(back, room - Total(front))
  {
    if front == [] {
      assert front + back == back;
      assert Flags(0) + Pick(back, room) == Pick(back, room);
    } else {
      assert (front + back)[1..] == front[1..] + back;
      PickBehind(front[1..], back, room - front[0]);
      assert Flags(|front|) == [true] + Flags(|front| - 1);
      assert [true] + (Flags(|front| - 1) + Pick(back, room - Total(front))) == Flags(|front|) + Pick(back, room - Total(front));
    }
  }
}
