/** The scheduler's ready queue: the array heap of lib/heap/include/heap.inc, instantiated by
    kern/thread.c with thread indices ordered by the priority of the thread they name.

    The functions say what each operation does to the live part of the buffer; the class is the
    buffer itself, updated in place. */
module ReadyHeap {

  const HEAP_SIZE: nat := 16
  const HEAP_FAIL: nat := 0xFFFF_FFFF

  /** HEAP_COMPARE: the thread with the smaller priority number goes first. */
  predicate Less(prio: seq<nat>, a: nat, b: nat) {
    a < |prio| && b < |prio| && prio[a] < prio[b]
  }

  function Swap(h: seq<nat>, i: nat, j: nat): (r: seq<nat>)
    requires i < |h| && j < |h|
    ensures |r| == |h|
  {
    h[i := h[j]][j := h[i]]
  }

  /** Swapping a member towards the root; the second component is where it came to rest. */
  function Swim(prio: seq<nat>, h: seq<nat>, idx: nat): (r: (seq<nat>, nat))
    requires idx < |h|
    ensures |r.0| == |h| && r.1 <= idx
    decreases idx
  {
    if idx == 0 then (h, 0)
    else
      var parent := (idx - 1) / 2;
      if Less(prio, h[idx], h[parent]) then Swim(prio, Swap(h, idx, parent), parent) else (h, idx)
  }

  /** The child that member idx is exchanged with, or idx when it stays. The right child is tried
      first and is not compared with its sibling. */
  function SinkTo(prio: seq<nat>, h: seq<nat>, idx: nat): (child: nat)
    ensures child == idx || (idx < child < |h| && (child == 2 * idx + 1 || child == 2 * idx + 2))
  {
    var left, right := 2 * idx + 1, 2 * idx + 2;
    if left >= |h| then idx
    else if right < |h| && Less(prio, h[right], h[idx]) then right
    else if Less(prio, h[left], h[idx]) then left
    else idx
  }

  /** Swapping a member towards the leaves. */
  function Sink(prio: seq<nat>, h: seq<nat>, idx: nat): (r: (seq<nat>, nat))
    ensures |r.0| == |h| && idx <= r.1
    ensures idx < |h| ==> r.1 < |h|
    decreases |h| - idx
  {
    var child := SinkTo(prio, h, idx);
    if child == idx then (h, idx) else Sink(prio, Swap(h, child, idx), child)
  }

  /** A full heap refuses the value and stays as it is. */
  function Insert(prio: seq<nat>, h: seq<nat>, value: nat): (r: seq<nat>)
  {
    if |h| == HEAP_SIZE then h else Swim(prio, h + [value], |h|).0
  }

  /** The last member takes the place of member idx. */
  function Drop(h: seq<nat>, idx: nat): (r: seq<nat>)
    requires idx < |h|
    ensures |r| == |h| - 1
  {
    h[idx := h[|h| - 1]][..|h| - 1]
  }

  function Delete(prio: seq<nat>, h: seq<nat>, idx: nat): (r: seq<nat>)
    requires idx < |h|
    ensures |r| == |h| - 1
  {
    Sink(prio, Drop(h, idx), idx).0
  }

  lemma {:induction false} SwapMultiset(h: seq<nat>, i: nat, j: nat)
    requires i < |h| && j < |h|
    ensures multiset(Swap(h, i, j)) == multiset(h)
  {
  }

  lemma {:induction false} SwimMultiset(prio: seq<nat>, h: seq<nat>, idx: nat)
    requires idx < |h|
    ensures multiset(Swim(prio, h, idx).0) == multiset(h)
    decreases idx
  {
    if idx > 0 && Less(prio, h[idx], h[(idx - 1) / 2]) {
      SwapMultiset(h, idx, (idx - 1) / 2);
      SwimMultiset(prio, Swap(h, idx, (idx - 1) / 2), (idx - 1) / 2);
    }
  }

  lemma {:induction false} SinkMultiset(prio: seq<nat>, h: seq<nat>, idx: nat)
    ensures multiset(Sink(prio, h, idx).0) == multiset(h)
    decreases |h| - idx
  {
    var child := SinkTo(prio, h, idx);
    if child != idx {
      SwapMultiset(h, child, idx);
      SinkMultiset(prio, Swap(h, child, idx), child);
    }
  }

  /** Insertion into a heap that is not full adds the value and loses nothing. */
  lemma {:induction false} InsertMultiset(prio: seq<nat>, h: seq<nat>, value: nat)
    requires |h| < HEAP_SIZE
    ensures multiset(Insert(prio, h, value)) == multiset(h) + multiset{value}
  {
    SwimMultiset(prio, h + [value], |h|);
  }

  lemma {:induction false} DropMultiset(h: seq<nat>, idx: nat)
    requires idx < |h|
    ensures multiset(Drop(h, idx)) == multiset(h) - multiset{h[idx]}
  {
    var last := |h| - 1;
    assert h == h[..last] + [h[last]];
    if idx < last {
      TakeOut(h[..last], idx);
      assert h[..last][idx := h[last]] == Drop(h, idx);
    } else {
      assert Drop(h, idx) == h[..last];
    }
  }

  lemma {:induction false} TakeOut(a: seq<nat>, i: nat)
    requires i < |a|
    ensures forall v :: multiset(a[i := v]) == multiset(a) - multiset{a[i]} + multiset{v}
  {
  }

  /** Deletion removes the member at idx, once, and nothing else. */
  lemma {:induction false} DeleteMultiset(prio: seq<nat>, h: seq<nat>, idx: nat)
    requires idx < |h|
    ensures multiset(Delete(prio, h, idx)) == multiset(h) - multiset{h[idx]}
  {
    DropMultiset(h, idx);
    SinkMultiset(prio, Drop(h, idx), idx);
  }

  /** Position of a thread in the heap, |h| when it is not there. */
  function IndexOf(h: seq<nat>, v: nat): (i: nat)
    ensures i <= |h|
    ensures i < |h| ==> h[i] == v
    ensures v !in h[..i]
    ensures i < |h| <==> v in h
  {
    if h == [] then 0
    else if h[0] == v then 0
    else
      var k := IndexOf(h[1..], v);
      assert h[..k + 1] == [h[0]] + h[1..][..k];
      k + 1
  }

  class ReadyQueue {
    var size: nat
    const data: array<nat>

    ghost predicate Valid()
      reads this, data
    {
      data.Length == HEAP_SIZE && size <= HEAP_SIZE
    }

    function Contents(): (h: seq<nat>)
      reads this, data
      requires Valid()
      ensures |h| == size
    {
      data[..size]
    }

    constructor ()
      ensures Valid() && fresh(data) && Contents() == []
    {
      data := new nat[HEAP_SIZE];
      size := 0;
    }

    method SwapMembers(i: nat, j: nat)
      requires Valid() && i < size && j < size
      modifies data
      ensures Valid() && Contents() == Swap(old(Contents()), i, j)
    {
      var tmp := data[i];
      data[i] := data[j];
      data[j] := tmp;
    }

    method SwimUp(prio: seq<nat>, start: nat) returns (idx: nat)
      requires Valid() && start < size
      modifies data
      ensures Valid() && (Contents(), idx) == Swim(prio, old(Contents()), start)
    {
      idx := start;
      if idx == 0 {
        return 0;
      }
      var parent := (idx - 1) / 2;
      while idx > 0 && Less(prio, data[idx], data[parent])
        invariant Valid() && idx < size
        invariant idx > 0 ==> parent == (idx - 1) / 2
        invariant Swim(prio, Contents(), idx) == Swim(prio, old(Contents()), start)
        decreases idx
      {
        SwapMembers(idx, parent);
        idx := parent;
        parent := if idx == 0 then 0 else (idx - 1) / 2;
      }
    }

    method SinkDown(prio: seq<nat>, start: nat) returns (idx: nat)
      requires Valid()
      modifies data
      ensures Valid() && (Contents(), idx) == Sink(prio, old(Contents()), start)
    {
      idx := start;
      if size < 2 {
        return;
      }
      var lastParent := (size - 2) / 2;
      while idx <= lastParent
        invariant Valid()
        invariant Sink(prio, Contents(), idx) == Sink(prio, old(Contents()), start)
        decreases size - idx
      {
        var leftChild, rightChild := idx * 2 + 1, idx * 2 + 2;
        if rightChild < size && Less(prio, data[rightChild], data[idx]) {
          assert SinkTo(prio, Contents(), idx) == rightChild;
          SwapMembers(rightChild, idx);
          idx := rightChild;
        } else if Less(prio, data[leftChild], data[idx]) {
          assert SinkTo(prio, Contents(), idx) == leftChild;
          SwapMembers(leftChild, idx);
          idx := leftChild;
        } else {
          assert SinkTo(prio, Contents(), idx) == idx;
          return;
        }
      }
    }

    method Push(prio: seq<nat>, value: nat) returns (idx: nat)
      requires Valid()
      modifies this, data
      ensures Valid() && Contents() == Insert(prio, old(Contents()), value)
      ensures idx == HEAP_FAIL <==> old(size) == HEAP_SIZE
    {
      if size == HEAP_SIZE {
        return HEAP_FAIL;
      }
      idx := size;
      size := size + 1;
      data[idx] := value;
      assert Contents() == old(Contents()) + [value];
      idx := SwimUp(prio, idx);
    }

    method DeleteAt(prio: seq<nat>, idx: nat)
      requires Valid() && idx < size
      modifies this, data
      ensures Valid() && Contents() == Delete(prio, old(Contents()), idx)
    {
      size := size - 1;
      data[idx] := data[size];
      assert Contents() == Drop(old(Contents()), idx);
      var _ := SinkDown(prio, idx);
    }

    method Pop(prio: seq<nat>)
      requires Valid() && size > 0
      modifies this, data
      ensures Valid() && Contents() == Delete(prio, old(Contents()), 0)
    {
      size := size - 1;
      data[0] := data[size];
      assert Contents() == Drop(old(Contents()), 0);
      var _ := SinkDown(prio, 0);
    }

    /** find_idx_in_heap of kern/thread.c. */
    method Find(v: nat) returns (i: nat)
      requires Valid()
      ensures i == if v in Contents() then IndexOf(Contents(), v) else HEAP_FAIL
    {
      i := 0;
      while i < size
        invariant i <= size && v !in data[..i]
      {
        if data[i] == v {
          assert Contents()[i] == v;
          return;
        }
        i := i + 1;
      }
      return HEAP_FAIL;
    }
  }
}
