/** The order of the ready queue of lib/heap/include/heap.inc: insertion keeps it; removal sinks with the
    right child tried first and never compares the siblings, so it keeps it only under a condition. */
module HeapOrder {
  import opened ReadyHeap

  function Parent(i: nat): nat
    requires i > 0
  {
    (i - 1) / 2
  }

  /** Member i does not go before its parent. */
  predicate InOrder(prio: seq<nat>, h: seq<nat>, i: nat)
    requires 0 < i < |h|
  {
    !Less(prio, h[i], h[Parent(i)])
  }

  ghost predicate Ordered(prio: seq<nat>, h: seq<nat>) {
    forall i :: 0 < i < |h| ==> InOrder(prio, h, i)
  }

  /** Every member is a thread with a priority. */
  ghost predicate InRange(prio: seq<nat>, h: seq<nat>) {
    forall i :: 0 <= i < |h| ==> h[i] < |prio|
  }

  /** The root of an ordered heap goes first: no member has a smaller priority number. */
  lemma {:induction false} RootIsFirst(prio: seq<nat>, h: seq<nat>, i: nat)
    requires Ordered(prio, h) && InRange(prio, h) && i < |h|
    ensures !Less(prio, h[i], h[0])
    decreases i
  {
    if i > 0 {
      assert InOrder(prio, h, i);
      RootIsFirst(prio, h, Parent(i));
    }
  }

  // ---------- Insertion ----------

  /** Ordered but for member idx against its parent; its children are in order with that parent. */
  ghost predicate LightAt(prio: seq<nat>, h: seq<nat>, idx: nat)
    requires idx < |h|
  {
    && (forall i :: 0 < i < |h| && i != idx ==> InOrder(prio, h, i))
    && (idx > 0 ==> forall i :: 0 < i < |h| && Parent(i) == idx ==> !Less(prio, h[i], h[Parent(idx)]))
  }

  lemma {:induction false} SwimStep(prio: seq<nat>, h: seq<nat>, idx: nat)
    requires 0 < idx < |h| && InRange(prio, h) && LightAt(prio, h, idx) && Less(prio, h[idx], h[Parent(idx)])
    ensures InRange(prio, Swap(h, idx, Parent(idx))) && LightAt(prio, Swap(h, idx, Parent(idx)), Parent(idx))
  {
    var parent := Parent(idx);
    var h1 := Swap(h, idx, parent);
    forall i | 0 < i < |h| && i != parent
      ensures InOrder(prio, h1, i)
    {
      if i != idx {
        assert InOrder(prio, h, i);
      }
    }
    if parent > 0 {
      assert InOrder(prio, h, parent);
      forall i | 0 < i < |h| && Parent(i) == parent
        ensures !Less(prio, h1[i], h1[Parent(parent)])
      {
        if i != idx {
          assert InOrder(prio, h, i);
        }
      }
    }
  }

  lemma {:induction false} SwimOrders(prio: seq<nat>, h: seq<nat>, idx: nat)
    requires idx < |h| && InRange(prio, h) && LightAt(prio, h, idx)
    ensures Ordered(prio, Swim(prio, h, idx).0)
    decreases idx
  {
    if idx > 0 && Less(prio, h[idx], h[Parent(idx)]) {
      SwimStep(prio, h, idx);
      SwimOrders(prio, Swap(h, idx, Parent(idx)), Parent(idx));
    }
  }

  /** Insertion keeps the order. */
  lemma {:induction false} InsertKeepsOrder(prio: seq<nat>, h: seq<nat>, value: nat)
    requires Ordered(prio, h) && InRange(prio, h) && value < |prio|
    ensures Ordered(prio, Insert(prio, h, value))
  {
    if |h| != HEAP_SIZE {
      var h1 := h + [value];
      forall i | 0 < i < |h1| && i != |h|
        ensures InOrder(prio, h1, i)
      {
        assert InOrder(prio, h, i);
      }
      SwimOrders(prio, h1, |h|);
    }
  }

  // ---------- Removal ----------

  /** On the way down, no member is exchanged with a right child that its left sibling goes before. */
  predicate SinkSafe(prio: seq<nat>, h: seq<nat>, idx: nat)
    decreases |h| - idx
  {
    var child := SinkTo(prio, h, idx);
    child == idx ||
    ((child == 2 * idx + 2 ==> !Less(prio, h[2 * idx + 1], h[2 * idx + 2])) &&
      SinkSafe(prio, Swap(h, child, idx), child))
  }

  /** Ordered but for the children of idx against it; they are in order with its parent. */
  ghost predicate HeavyAt(prio: seq<nat>, h: seq<nat>, idx: nat) {
    && (forall i :: 0 < i < |h| && Parent(i) != idx ==> InOrder(prio, h, i))
    && (0 < idx < |h| ==> forall i :: 0 < i < |h| && Parent(i) == idx ==> !Less(prio, h[i], h[Parent(idx)]))
  }

  /** Sinking from idx leaves every earlier position alone. */
  lemma {:induction false} SinkKeepsAbove(prio: seq<nat>, h: seq<nat>, idx: nat, k: nat)
    requires k < |h| && k < idx
    ensures Sink(prio, h, idx).0[k] == h[k]
    decreases |h| - idx
  {
    var child := SinkTo(prio, h, idx);
    if child != idx {
      SinkKeepsAbove(prio, Swap(h, child, idx), child, k);
    }
  }

  lemma {:induction false} ChildrenAre(i: nat, idx: nat)
    requires i > 0
    ensures Parent(i) == idx <==> i == 2 * idx + 1 || i == 2 * idx + 2
  {
  }

  lemma {:induction false} SinkStep(prio: seq<nat>, h: seq<nat>, idx: nat)
    requires idx < |h| && InRange(prio, h) && HeavyAt(prio, h, idx)
    requires var child := SinkTo(prio, h, idx);
      child != idx && (child == 2 * idx + 2 ==> !Less(prio, h[2 * idx + 1], h[2 * idx + 2]))
    ensures var child := SinkTo(prio, h, idx);
      InRange(prio, Swap(h, child, idx)) && HeavyAt(prio, Swap(h, child, idx), child)
  {
    var child := SinkTo(prio, h, idx);
    var h1 := Swap(h, child, idx);
    forall i | 0 < i < |h| && Parent(i) != child
      ensures InOrder(prio, h1, i)
    {
      ChildrenAre(i, idx);
      if Parent(i) != idx {
        assert InOrder(prio, h, i);
        if i == idx {
          assert !Less(prio, h[child], h[Parent(idx)]);
        }
      }
    }
    forall i | 0 < i < |h| && Parent(i) == child
      ensures !Less(prio, h1[i], h1[Parent(child)])
    {
      assert InOrder(prio, h, i);
    }
  }

  lemma {:induction false} SinkRests(prio: seq<nat>, h: seq<nat>, idx: nat)
    requires InRange(prio, h) && HeavyAt(prio, h, idx) && SinkTo(prio, h, idx) == idx
    ensures Ordered(prio, h)
  {
    forall i | 0 < i < |h|
      ensures InOrder(prio, h, i)
    {
      ChildrenAre(i, idx);
    }
  }

  /** An exchange with the right child past a left one that goes before it is never made good. */
  lemma {:induction false} SinkSpoils(prio: seq<nat>, h: seq<nat>, idx: nat)
    requires InRange(prio, h) && SinkTo(prio, h, idx) == 2 * idx + 2 < |h| && Less(prio, h[2 * idx + 1], h[2 * idx + 2])
    ensures !Ordered(prio, Sink(prio, h, idx).0)
  {
    var left, child := 2 * idx + 1, 2 * idx + 2;
    var h1 := Swap(h, child, idx);
    SinkKeepsAbove(prio, h1, child, idx);
    SinkKeepsAbove(prio, h1, child, left);
    assert !InOrder(prio, Sink(prio, h1, child).0, left);
  }

  /** Sinking restores the order exactly when it is safe. */
  lemma {:induction false} SinkOrdersIff(prio: seq<nat>, h: seq<nat>, idx: nat)
    requires InRange(prio, h) && HeavyAt(prio, h, idx)
    ensures Ordered(prio, Sink(prio, h, idx).0) <==> SinkSafe(prio, h, idx)
    decreases |h| - idx
  {
    var child := SinkTo(prio, h, idx);
    if child == idx {
      SinkRests(prio, h, idx);
    } else if child == 2 * idx + 2 && Less(prio, h[2 * idx + 1], h[2 * idx + 2]) {
      SinkSpoils(prio, h, idx);
    } else {
      SinkStep(prio, h, idx);
      SinkOrdersIff(prio, Swap(h, child, idx), child);
    }
  }

  /** Removing the root of an ordered heap leaves an ordered heap exactly when sinking the last member from
      there is safe. */
  lemma {:induction false} PopKeepsOrderIff(prio: seq<nat>, h: seq<nat>)
    requires Ordered(prio, h) && InRange(prio, h) && h != []
    ensures Ordered(prio, Delete(prio, h, 0)) <==> SinkSafe(prio, Drop(h, 0), 0)
  {
    DeleteKeepsOrderIff(prio, h, 0);
  }

  /** Removing any member does so exactly when, besides, the last member does not go before the parent of
      the place it takes: nothing swims it up. */
  lemma {:induction false} DeleteKeepsOrderIff(prio: seq<nat>, h: seq<nat>, idx: nat)
    requires Ordered(prio, h) && InRange(prio, h) && idx < |h|
    ensures Ordered(prio, Delete(prio, h, idx)) <==>
      SinkSafe(prio, Drop(h, idx), idx) &&
      (0 < idx < |h| - 1 ==> !Less(prio, h[|h| - 1], h[Parent(idx)]))
  {
    var d := Drop(h, idx);
    if 0 < idx < |h| - 1 && Less(prio, h[|h| - 1], h[Parent(idx)]) {
      SinkKeepsAbove(prio, d, idx, Parent(idx));
      StaysInPlace(prio, h, idx);
      assert !InOrder(prio, Sink(prio, d, idx).0, idx);
    } else {
      forall i | 0 < i < |d| && Parent(i) != idx
        ensures InOrder(prio, d, i)
      {
        assert InOrder(prio, h, i);
      }
      if 0 < idx < |d| {
        assert InOrder(prio, h, idx);
        forall i | 0 < i < |d| && Parent(i) == idx
          ensures !Less(prio, d[i], d[Parent(idx)])
        {
          assert InOrder(prio, h, i);
        }
      }
      SinkOrdersIff(prio, d, idx);
    }
  }

  /** A member that goes before the parent of its new place does not sink. */
  lemma {:induction false} StaysInPlace(prio: seq<nat>, h: seq<nat>, idx: nat)
    requires Ordered(prio, h) && InRange(prio, h) && 0 < idx < |h| - 1 && Less(prio, h[|h| - 1], h[Parent(idx)])
    ensures Sink(prio, Drop(h, idx), idx).0 == Drop(h, idx)
  {
    var d := Drop(h, idx);
    assert InOrder(prio, h, idx);
    if 2 * idx + 1 < |d| {
      assert InOrder(prio, h, 2 * idx + 1);
    }
    if 2 * idx + 2 < |d| {
      assert InOrder(prio, h, 2 * idx + 2);
    }
  }

  /** Ties change nothing: a thread that goes before none of the heap is added behind them, and when no two differ in
      priority the last member takes the place of the one removed and stays there. */
  lemma {:induction false} TiesStay(prio: seq<nat>, h: seq<nat>, value: nat, idx: nat)
    requires |h| < HEAP_SIZE && idx < |h|
    ensures (forall i :: 0 <= i < |h| ==> !Less(prio, value, h[i])) ==> Insert(prio, h, value) == h + [value]
    ensures (forall i, j :: 0 <= i < |h| && 0 <= j < |h| ==> !Less(prio, h[i], h[j])) ==>
      Delete(prio, h, idx) == Drop(h, idx)
  {
    var d := Drop(h, idx);
    assert forall i :: 0 <= i < |d| ==> d[i] == if i == idx then h[|h| - 1] else h[i];
  }

  /** Threads 0 to 3 with priorities 1, 2, 3 and 5 in order: after a pop thread 2 is at the root, although
      thread 1 goes before it. */
  lemma {:induction false} PopBreaksOrder()
    ensures Ordered([1, 2, 3, 5], [0, 1, 2, 3])
    ensures Delete([1, 2, 3, 5], [0, 1, 2, 3], 0) == [2, 1, 3]
    ensures Less([1, 2, 3, 5], 1, 2)
  {
    var prio, h := [1, 2, 3, 5], [0, 1, 2, 3];
    var d := Drop(h, 0);
    assert d == [3, 1, 2];
    assert SinkTo(prio, d, 0) == 2;
    assert Swap(d, 2, 0) == [2, 1, 3];
    assert SinkTo(prio, [2, 1, 3], 2) == 2;
    assert Sink(prio, [2, 1, 3], 2).0 == [2, 1, 3];
  }
}
