/** Priorities and the scheduler: which thread a context switch picks from an ordered ready heap, and when the heap is
    ordered again. */
module KernelSchedule {
  import opened HeapOrder
  import opened IpcRendezvous
  import opened KernelRuns
  import opened KernelState
  import opened KernelSystem
  import opened ReadyHeap
  import opened Words

  lemma {:induction false} ThreadsInRange(s: State)
    requires IpcInv(s) && |s.ids| > IDLE && s.states[IDLE] == Runnable
    ensures InRange(Priorities(s.ids), s.heap) && InRange(Priorities(s.ids), Requeue(s).heap)
    ensures forall w: nat :: w in Requeue(s).heap <==> IsThread(s, w) && s.states[w] == Runnable
  {
    HeapMembers(s);
    RequeueCollects(s);
    MembersOfMultiset(Requeue(s).heap, AllRunnable(s));
    var h := Requeue(s).heap;
    forall i | 0 <= i < |h|
      ensures h[i] < |s.ids|
    {
      assert h[i] in h;
    }
    forall i | 0 <= i < |s.heap|
      ensures s.heap[i] < |s.ids|
    {
      assert s.heap[i] in s.heap;
    }
  }

  lemma {:induction false} RequeueKeepsOrder(s: State)
    requires IpcInv(s) && |s.ids| > IDLE && s.states[IDLE] == Runnable && Ordered(Priorities(s.ids), s.heap)
    ensures Ordered(Priorities(s.ids), Requeue(s).heap)
  {
    ThreadsInRange(s);
    if s.current < |s.ids| && s.states[s.current] == Runnable {
      InsertKeepsOrder(Priorities(s.ids), s.heap, s.current);
    }
  }

  /** From an ordered heap a switch without a wish picks a thread of the least priority number among all runnable
      threads, and the heap is ordered again exactly when sinking its last member from the root passes over no left
      child that goes first. */
  lemma {:induction false} PicksMostUrgent(s: State, w: nat)
    requires IpcInv(s) && |s.ids| > IDLE && s.states[IDLE] == Runnable && Ordered(Priorities(s.ids), s.heap)
    requires IsThread(s, w) && s.states[w] == Runnable
    ensures ScheduleNext(s, None).Switched?
    ensures var s' := ScheduleNext(s, None).s;
      && IsThread(s, s'.current) && s.ids[s'.current].priority <= s.ids[w].priority
      && Requeue(s).heap != []
      && (Ordered(Priorities(s.ids), s'.heap) <==> SinkSafe(Priorities(s.ids), Drop(Requeue(s).heap, 0), 0))
  {
    var prio, h := Priorities(s.ids), Requeue(s).heap;
    ThreadsInRange(s);
    RequeueKeepsOrder(s);
    ScheduleNextKeeps(s, None);
    assert w in h;
    var i :| 0 <= i < |h| && h[i] == w;
    RootIsFirst(prio, h, i);
    PopKeepsOrderIff(prio, h);
  }

  /** With a wish that waits, the heap is ordered again exactly when sinking its last member from the place of the
      wished thread is safe and the member does not go before that place's parent. */
  lemma {:induction false} WishKeepsOrderIff(s: State, t: nat)
    requires IpcInv(s) && |s.ids| > IDLE && s.states[IDLE] == Runnable && Ordered(Priorities(s.ids), s.heap)
    requires IsThread(s, t) && s.states[t] == Runnable
    ensures ScheduleNext(s, Some(t)).Switched? && t in Requeue(s).heap
    ensures var prio, h := Priorities(s.ids), Requeue(s).heap;
      var i := IndexOf(h, t);
      var s' := ScheduleNext(s, Some(t)).s;
      s'.current == t &&
      (Ordered(prio, s'.heap) <==>
       SinkSafe(prio, Drop(h, i), i) && (0 < i < |h| - 1 ==> !Less(prio, h[|h| - 1], h[Parent(i)])))
  {
    ThreadsInRange(s);
    RequeueKeepsOrder(s);
    ScheduleNextKeeps(s, Some(t));
    DeleteKeepsOrderIff(Priorities(s.ids), Requeue(s).heap, IndexOf(Requeue(s).heap, t));
  }

  // ---------- A new priority ----------

  lemma {:induction false} TwiceInHeap(h: seq<nat>, i: nat, j: nat)
    requires i < j < |h| && h[i] == h[j]
    ensures multiset(h)[h[i]] >= 2
  {
    assert h == h[..j] + h[j..];
    assert h[i] == h[..j][i] && h[j] == h[j..][0];
    assert h[i] in h[..j] && h[i] in h[j..];
    assert multiset(h)[h[i]] == multiset(h[..j])[h[i]] + multiset(h[j..])[h[i]];
  }

  lemma {:induction false} MembersDiffer(s: State, i: nat, j: nat)
    requires HeapAgrees(s) && i < j < |s.heap|
    ensures s.heap[i] != s.heap[j]
  {
    assert multiset(Ready(s))[s.heap[i]] <= 1;
    if s.heap[i] == s.heap[j] {
      TwiceInHeap(s.heap, i, j);
      assert false;
    }
  }

  /** A member that starts in order with its parent ends its sinking in order with its parent. */
  lemma {:induction false} SinkEndsInOrder(prio: seq<nat>, h: seq<nat>, idx: nat)
    requires idx < |h| && (idx > 0 ==> InOrder(prio, h, idx))
    ensures var (h2, j) := Sink(prio, h, idx); j > 0 ==> InOrder(prio, h2, j)
    decreases |h| - idx
  {
    var child := SinkTo(prio, h, idx);
    if child != idx {
      ChildrenAre(child, idx);
      SinkEndsInOrder(prio, Swap(h, child, idx), child);
    }
  }

  ghost predicate OthersAs(prio: seq<nat>, prio': seq<nat>, t: nat) {
    |prio| == |prio'| && t < |prio| && forall i :: 0 <= i < |prio| && i != t ==> prio'[i] == prio[i]
  }

  ghost predicate OnlyAt(h: seq<nat>, idx: nat, t: nat) {
    idx < |h| && forall i :: 0 <= i < |h| ==> (h[i] == t <==> i == idx)
  }

  /** A member that becomes more urgent does not sink, and swims to its place. */
  lemma {:induction false} MoreUrgent(prio: seq<nat>, prio': seq<nat>, h: seq<nat>, idx: nat, t: nat)
    requires Ordered(prio, h) && InRange(prio, h) && OnlyAt(h, idx, t) && OthersAs(prio, prio', t) &&
      prio'[t] <= prio[t]
    ensures SinkTo(prio', h, idx) == idx && Ordered(prio', Swim(prio', h, idx).0)
  {
    forall i | 0 < i < |h| && i != idx
      ensures InOrder(prio', h, i)
    {
      assert InOrder(prio, h, i);
    }
    if 2 * idx + 1 < |h| {
      assert InOrder(prio, h, 2 * idx + 1);
    }
    if 2 * idx + 2 < |h| {
      assert InOrder(prio, h, 2 * idx + 2);
    }
    if idx > 0 {
      assert InOrder(prio, h, idx);
      forall i | 0 < i < |h| && Parent(i) == idx
        ensures !Less(prio', h[i], h[Parent(idx)])
      {
        assert InOrder(prio, h, i);
      }
    }
    SwimOrders(prio', h, idx);
  }

  /** A member that becomes less urgent sinks, in order exactly when that is safe, and does not swim. */
  lemma {:induction false} LessUrgent(prio: seq<nat>, prio': seq<nat>, h: seq<nat>, idx: nat, t: nat)
    requires Ordered(prio, h) && InRange(prio, h) && OnlyAt(h, idx, t) && OthersAs(prio, prio', t) && prio'[t] > prio[t]
    ensures var (h2, j) := Sink(prio', h, idx);
      Swim(prio', h2, j).0 == h2 && (Ordered(prio', h2) <==> SinkSafe(prio', h, idx))
  {
    forall i | 0 < i < |h| && Parent(i) != idx
      ensures InOrder(prio', h, i)
    {
      assert InOrder(prio, h, i);
    }
    if idx > 0 {
      assert InOrder(prio, h, idx);
      forall i | 0 < i < |h| && Parent(i) == idx
        ensures !Less(prio', h[i], h[Parent(idx)])
      {
        assert InOrder(prio, h, i);
      }
    }
    SinkOrdersIff(prio', h, idx);
    SinkEndsInOrder(prio', h, idx);
  }

  /** set_thread_priority on a thread that waits for the processor: the heap is ordered again exactly when sinking the
      thread is safe, which it is whenever the thread becomes more urgent. */
  lemma {:induction false} PriorityKeepsOrderIff(s: State, t: nat, p: nat)
    requires IpcInv(s) && IsThread(s, t) && t in s.heap && Ordered(Priorities(s.ids), s.heap)
    ensures var r, idx := SetPriority(s, t, p), IndexOf(s.heap, t);
      && (Ordered(Priorities(r.ids), r.heap) <==> SinkSafe(Priorities(r.ids), s.heap, idx))
      && (p <= s.ids[t].priority ==> SinkSafe(Priorities(r.ids), s.heap, idx))
  {
    var r, idx, h := SetPriority(s, t, p), IndexOf(s.heap, t), s.heap;
    var prio, prio' := Priorities(s.ids), Priorities(r.ids);
    HeapMembers(s);
    forall i | 0 <= i < |h|
      ensures h[i] < |prio| && (h[i] == t <==> i == idx)
    {
      assert h[i] in h;
      if i < idx {
        MembersDiffer(s, i, idx);
      } else if idx < i {
        MembersDiffer(s, idx, i);
      }
    }
    if p <= s.ids[t].priority {
      MoreUrgent(prio, prio', h, idx, t);
    } else {
      LessUrgent(prio, prio', h, idx, t);
    }
  }
}
