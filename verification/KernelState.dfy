/** The kernel's thread table, scheduler and IPC variables as one value, and the primitive changes of
    kern/thread.c and kern/syscall.c as functions on it.

    A pointer to a TCB is its index in tcb_store. TCBs are allocated from index 0 upwards and never
    freed here, so the live threads are exactly the indices below |ids|. The fields of the TCBs are
    kept as parallel sequences, those that IPC never writes apart from those that it does. */
module KernelState {
  import opened Words
  import opened ReadyHeap
  import MessageCopy

  datatype ThreadState = Inactive | Active | Runnable | SvcBlocked | RecvBlocked | SendBlocked | Paused

  /** The states of a thread whose call is still to be served: blocked in it, unless an alarm for an earlier pause
      has made it runnable, and then perhaps paused again. */
  predicate Calling(st: ThreadState) {
    st == SvcBlocked || st == Runnable || st == Paused
  }

  /** What IPC never writes; space 0 is the NULL address space. */
  datatype Ident = Ident(globalId: Word, localId: Word, space: nat, priority: nat, pager: Word, scheduler: Word)

  datatype Utcb = Utcb(tag: Tag, words: MessageCopy.Registers, error: ErrorWord, sender: Word)

  /** The registers a system call reads: r0 to r3 from the thread's stack frame, r4 and r7 (the call
      number) from the saved context. */
  datatype Regs = Regs(r0: Word, r1: Word, r2: Word, r3: Word, r4: Word, r7: Word)

  /** Where a start message lets the thread begin: the program counter and status on its stack, its stack pointer
      and the code by which the exception returns to it. */
  datatype Entry = Entry(pc: Word, sp: Word, psr: Word, ret: Word)

  const THUMB_BIT: Word := 0x100_0000
  const RETURN_TO_THREAD: Word := 0xFFFF_FFFD

  const THREAD_MAX_COUNT: nat := 16
  const NOBODY: nat := 17

  const KERNEL: nat := 0
  const IDLE: nat := 1
  const ROOT: nat := 2

  /** peers is ipc_from; current is current_thread_idx, NOBODY before the first switch; pending is
      the one bit of softirq_pending; spaces counts the address spaces handed out. */
  datatype RawState = RawState(
    ids: seq<Ident>, states: seq<ThreadState>, peers: seq<Word>, utcbs: seq<Utcb>, regs: seq<Regs>, entries: seq<Entry>,
    heap: seq<nat>, current: nat, caller: nat, pending: bool, spaces: nat, mem: seq<Byte>)

  type State = s: RawState |
    |s.states| == |s.ids| && |s.peers| == |s.ids| && |s.utcbs| == |s.ids| && |s.regs| == |s.ids| &&
      |s.entries| == |s.ids|
    witness RawState([], [], [], [], [], [], [], 0, 0, false, 0, [])

  function Priorities(ids: seq<Ident>): (p: seq<nat>)
    ensures |p| == |ids|
  {
    seq(|ids|, i requires 0 <= i < |ids| => ids[i].priority)
  }

  predicate IsThread(s: State, t: nat) {
    t < |s.ids|
  }

  /** set_thread_state: keeps the ready heap in step with the state. */
  function SetState(s: State, t: nat, st: ThreadState): (r: State)
    requires IsThread(s, t)
    ensures r.states == s.states[t := st]
    ensures r == s.(states := r.states, heap := r.heap)
  {
    s.(states := s.states[t := st], heap := HeapAfter(s, t, st))
  }

  function HeapAfter(s: State, t: nat, st: ThreadState): seq<nat>
    requires IsThread(s, t)
  {
    if st == Runnable && s.states[t] != Runnable then
      Insert(Priorities(s.ids), s.heap, t)
    else if st != Runnable && s.states[t] == Runnable && t in s.heap then
      Delete(Priorities(s.ids), s.heap, IndexOf(s.heap, t))
    else s.heap
  }

  function SetUtcb(s: State, t: nat, utcb: Utcb): State
    requires IsThread(s, t)
  {
    s.(utcbs := s.utcbs[t := utcb])
  }

  function SetPeer(s: State, t: nat, peer: Word): State
    requires IsThread(s, t)
  {
    s.(peers := s.peers[t := peer])
  }

  function SetR0(s: State, t: nat, r0: Word): State
    requires IsThread(s, t)
  {
    s.(regs := s.regs[t := s.regs[t].(r0 := r0)])
  }

  function SetError(s: State, t: nat, error: ErrorWord): State
    requires IsThread(s, t)
  {
    SetUtcb(s, t, s.utcbs[t].(error := error))
  }

  /** set_ipc_error. */
  function FlagError(s: State, t: nat): State
    requires IsThread(s, t)
  {
    SetUtcb(s, t, s.utcbs[t].(tag := WithErrorFlag(s.utcbs[t].tag)))
  }

  /** find_thread_by_global_id: the thread with the same thread number. */
  function Lookup(ids: seq<Ident>, id: Word): (r: Option<nat>)
    ensures r.Some? ==> r.value < |ids| && SameThreads(ids[r.value].globalId, id)
    ensures r.None? ==> forall i :: 0 <= i < |ids| ==> !SameThreads(ids[i].globalId, id)
  {
    LookupFrom(ids, id, 0)
  }

  function LookupFrom(ids: seq<Ident>, id: Word, k: nat): (r: Option<nat>)
    requires k <= |ids|
    ensures r.Some? ==> k <= r.value < |ids| && SameThreads(ids[r.value].globalId, id)
    ensures r.None? ==> forall i :: k <= i < |ids| ==> !SameThreads(ids[i].globalId, id)
    decreases |ids| - k
  {
    if k == |ids| then None
    else if SameThreads(ids[k].globalId, id) then Some(k)
    else LookupFrom(ids, id, k + 1)
  }

  /** One more thread, which may be the one looked for. */
  lemma {:induction false} LookupGrows(ids: seq<Ident>, id: Ident, x: Word)
    ensures Lookup(ids + [id], x).Some? <==> Lookup(ids, x).Some? || SameThreads(id.globalId, x)
  {
    var ids' := ids + [id];
    assert ids'[|ids|] == id;
    if Lookup(ids, x).Some? {
      assert ids'[Lookup(ids, x).value] == ids[Lookup(ids, x).value];
    }
    forall i | 0 <= i < |ids|
      ensures ids'[i] == ids[i]
    {
    }
  }

  /** Thread numbers identify threads. */
  ghost predicate DistinctNumbers(ids: seq<Ident>) {
    forall i, j :: 0 <= i < j < |ids| ==> !SameThreads(ids[i].globalId, ids[j].globalId)
  }

  /** A peer that names a thread. */
  predicate NamesThread(ids: seq<Ident>, id: Word) {
    IsGlobalName(id) && Lookup(ids, id).Some?
  }

  /** A local id that could not be taken for the name of a thread: UTCB addresses need not have local form. */
  predicate ActsLocal(ids: seq<Ident>, localId: Word) {
    IsLocalId(localId) || Lookup(ids, localId).None?
  }

  /** Threads are neither renumbered nor taken away; new ones come last. */
  ghost predicate Extends(ids: seq<Ident>, ids': seq<Ident>) {
    |ids| <= |ids'| && forall i :: 0 <= i < |ids| ==> ids'[i].globalId == ids[i].globalId
  }

  /** The threads are in the order of their numbers. */
  ghost predicate Increasing(ids: seq<Ident>) {
    forall i, j :: 0 <= i < j < |ids| ==> ThreadNo(ids[i].globalId) < ThreadNo(ids[j].globalId)
  }

  /** Everything that IPC does not change. */
  predicate SameThreadsAs(s: State, s': State) {
    s'.ids == s.ids && s'.current == s.current && s'.caller == s.caller && s'.pending == s.pending &&
    s'.spaces == s.spaces && |s'.mem| == |s.mem|
  }

  // ---------- The ready queue ----------

  /** The threads that wait for the processor. */
  ghost function Ready(s: State): (r: set<nat>) {
    set i | 0 <= i < |s.ids| && s.states[i] == Runnable && i != s.current
  }

  /** The heap holds exactly the runnable threads other than the current one, each once. */
  ghost predicate HeapAgrees(s: State) {
    multiset(s.heap) == multiset(Ready(s))
  }

  lemma {:induction false} BelowBound(r: set<nat>, n: nat)
    requires forall i :: i in r ==> i < n
    ensures |r| <= n
  {
    if n == 0 {
      assert r == {};
    } else {
      var r' := r - {n - 1};
      BelowBound(r', n - 1);
      assert |r| <= |r' + {n - 1}|;
      assert r <= r' + {n - 1};
      if n - 1 in r { assert r == r' + {n - 1}; } else { assert r == r'; }
    }
  }

  lemma {:induction false} HeapMembers(s: State)
    requires HeapAgrees(s)
    ensures forall i :: i in s.heap <==> i in Ready(s)
    ensures |s.heap| == |Ready(s)|
  {
    assert forall i :: i in s.heap <==> i in multiset(s.heap);
    assert |s.heap| == |multiset(s.heap)|;
  }

  /** A thread that is not waiting leaves room for itself: an insertion never meets a full heap. */
  lemma {:induction false} HeapHasRoom(s: State, t: nat)
    requires HeapAgrees(s) && |s.ids| <= THREAD_MAX_COUNT && IsThread(s, t) && t !in Ready(s)
    ensures |s.heap| < HEAP_SIZE
  {
    HeapMembers(s);
    BelowBound(Ready(s) + {t}, |s.ids|);
  }

  /** Readiness of t in a state that differs from s in t's own state only. */
  lemma {:induction false} ReadyAfter(s: State, s': State, t: nat)
    requires IsThread(s, t) && s'.current == s.current
    requires |s'.ids| == |s.ids| && s'.states == s.states[t := s'.states[t]]
    ensures Ready(s') == if s'.states[t] == Runnable && t != s.current then Ready(s) + {t} else Ready(s) - {t}
  {
  }

  lemma {:induction false} MultisetOfMore(r: set<nat>, t: nat)
    requires t !in r
    ensures multiset(r + {t}) == multiset(r) + multiset{t}
  {
  }

  lemma {:induction false} MultisetOfLess(r: set<nat>, t: nat)
    requires t in r
    ensures multiset(r - {t}) == multiset(r) - multiset{t}
  {
  }

  /** set_thread_state keeps the agreement, unless it makes the current thread runnable behind the
      scheduler's back. */
  lemma {:induction false} SetStateAgrees(s: State, t: nat, st: ThreadState)
    requires HeapAgrees(s) && |s.ids| <= THREAD_MAX_COUNT && IsThread(s, t)
    requires t == s.current && st == Runnable ==> s.states[t] == Runnable
    ensures HeapAgrees(SetState(s, t, st))
  {
    var prio := Priorities(s.ids);
    HeapMembers(s);
    ReadyAfter(s, SetState(s, t, st), t);
    if st == Runnable && s.states[t] != Runnable {
      HeapHasRoom(s, t);
      InsertMultiset(prio, s.heap, t);
      MultisetOfMore(Ready(s), t);
    } else if t in Ready(s) && st != Runnable {
      DeleteMultiset(prio, s.heap, IndexOf(s.heap, t));
      MultisetOfLess(Ready(s), t);
    } else if t in Ready(s) {
      assert Ready(s) + {t} == Ready(s);
    } else {
      assert Ready(s) - {t} == Ready(s);
    }
  }
}
