/** The kernel's promises over whole runs from boot. */
module KernelTheorems {
  import opened Words
  import opened ReadyHeap
  import opened KernelState
  import opened Ipc
  import opened IpcRendezvous
  import opened KernelSystem
  import opened KernelRuns
  import opened MessageCopy
  import ThreadMap

  // ---------- Boot ----------

  const SYSTEM_THREAD_START: nat := 0x30

  function GlobalId(number: nat, version: nat): Word
    requires number < 0x1000 && version < 0x4000
  {
    number * 0x4000 + version
  }

  /** The kernel, idle and root threads. */
  function BootIds(rootUtcb: Word): seq<Ident> {
    var kernId := GlobalId(SYSTEM_THREAD_START, 1);
    [Ident(kernId, 0, 0, 0, kernId, kernId),
     Ident(GlobalId(SYSTEM_THREAD_START + 1, 1), 0, 0, ALL_ONES, kernId, kernId),
     Ident(GlobalId(USER_THREAD_START, 1), rootUtcb, 0, 42, kernId, kernId)]
  }

  /** create_sys_threads: the kernel thread, not yet active, and the idle and root threads, both
      runnable. Nothing runs until the first context switch. */
  function Boot(rootUtcb: Word, utcbs: seq<Utcb>, mem: seq<Byte>): State
    requires |utcbs| == 3
  {
    var zero := Regs(0, 0, 0, 0, 0, 0);
    var s := RawState(BootIds(rootUtcb), [Inactive, Inactive, Inactive], [0, 0, 0], utcbs, [zero, zero, zero],
                      [Entry(0, 0, 0, 0), Entry(0, 0, 0, 0), Entry(0, 0, 0, 0)], [], NOBODY, 0, false, 0, mem);
    SetState(SetState(s, IDLE, Runnable), ROOT, Runnable)
  }

  /** The boot state is as the invariant demands, provided the root thread's UTCB address cannot be taken for the
      name of one of the three threads. */
  lemma {:induction false} BootInv(rootUtcb: Word, utcbs: seq<Utcb>, mem: seq<Byte>)
    requires |utcbs| == 3 && ActsLocal(BootIds(rootUtcb), rootUtcb)
    ensures Inv(Boot(rootUtcb, utcbs, mem))
  {
    var kernId := GlobalId(SYSTEM_THREAD_START, 1);
    var s := Boot(rootUtcb, utcbs, mem);
    var zero := Regs(0, 0, 0, 0, 0, 0);
    var s0 := RawState(s.ids, [Inactive, Inactive, Inactive], [0, 0, 0], utcbs, [zero, zero, zero],
                       [Entry(0, 0, 0, 0), Entry(0, 0, 0, 0), Entry(0, 0, 0, 0)], [], NOBODY, 0, false, 0, mem);
    assert Ready(s0) == {};
    SetStateAgrees(s0, IDLE, Runnable);
    SetStateAgrees(SetState(s0, IDLE, Runnable), ROOT, Runnable);
  }

  // ---------- Runs ----------

  /** The state and the events after the steps, in order. OutOfModel also stands for a step whose guard
      does not hold. */
  ghost function Run(s: State, steps: seq<Step>): (r: Result)
    requires Inv(s)
    ensures r != SchedulerPanic
    ensures r.Next? ==> Inv(r.s)
    decreases |steps|
  {
    if steps == [] then Next(s, [])
    else if !Enabled(s, steps[0]) then OutOfModel
    else
      StepKeeps(s, steps[0]);
      var first := TakeStep(s, steps[0]);
      if !first.Next? then first
      else
        var rest := Run(first.s, steps[1..]);
        if rest.Next? then Next(rest.s, first.ev + rest.ev) else rest
  }

  ghost predicate Reachable(s: State) {
    exists rootUtcb: Word, utcbs: seq<Utcb>, mem: seq<Byte>, steps: seq<Step> ::
      |utcbs| == 3 && ActsLocal(BootIds(rootUtcb), rootUtcb) && ReachedBy(s, rootUtcb, utcbs, mem, steps)
  }

  ghost predicate ReachedBy(s: State, rootUtcb: Word, utcbs: seq<Utcb>, mem: seq<Byte>, steps: seq<Step>)
    requires |utcbs| == 3 && ActsLocal(BootIds(rootUtcb), rootUtcb)
  {
    BootInv(rootUtcb, utcbs, mem);
    var r := Run(Boot(rootUtcb, utcbs, mem), steps);
    r.Next? && r.s == s
  }

  lemma {:induction false} ReachableInv(s: State)
    requires Reachable(s)
    ensures Inv(s)
  {
    var rootUtcb: Word, utcbs: seq<Utcb>, mem: seq<Byte>, steps: seq<Step> :|
      |utcbs| == 3 && ActsLocal(BootIds(rootUtcb), rootUtcb) && ReachedBy(s, rootUtcb, utcbs, mem, steps);
    BootInv(rootUtcb, utcbs, mem);
  }

  /** In no reachable state do a sender and a receiver wait for each other. */
  lemma {:induction false} NoMissedRendezvousEver(s: State, snd: nat, rcv: nat)
    requires Reachable(s) && IsThread(s, snd) && IsThread(s, rcv)
    requires s.states[snd] == SendBlocked && s.peers[snd] == s.ids[rcv].globalId
    requires s.states[rcv] == RecvBlocked
    ensures s.peers[rcv] != ANYTHREAD && s.peers[rcv] != s.ids[snd].globalId
  {
    ReachableInv(s);
    assert !Missed(s, snd, rcv);
  }

  /** In every reachable state the ready heap holds each runnable thread but the current one exactly
      once and nothing else, so that an insertion always finds room. */
  lemma {:induction false} ReadyQueueAgreement(s: State, t: nat)
    requires Reachable(s)
    ensures multiset(s.heap)[t] == if IsThread(s, t) && s.states[t] == Runnable && t != s.current then 1 else 0
    ensures |s.heap| < HEAP_SIZE
  {
    ReachableInv(s);
    assert multiset(Ready(s))[t] == if t in Ready(s) then 1 else 0;
    HeapMembers(s);
    HeapHasRoom(s, if s.current == NOBODY then KERNEL else s.current);
  }

  /** In every reachable state a context switch, whatever thread is asked for, finds a runnable thread. */
  lemma {:induction false} SchedulerNeverPanics(s: State, target: Option<nat>)
    requires Reachable(s)
    ensures ScheduleNext(s, target).Switched?
    ensures var s' := ScheduleNext(s, target).s;
      s'.current < |s'.ids| && s'.states[s'.current] == Runnable && s'.current !in s'.heap &&
      (target.Some? && target.value in s.heap ==> s'.current == target.value)
  {
    ReachableInv(s);
    HeapMembers(s);
    ScheduleNextKeeps(s, target);
  }

  lemma {:induction false} RunGrows(s: State, steps: seq<Step>)
    requires Inv(s) && Run(s, steps).Next? && Increasing(s.ids) && |s.ids| < THREAD_MAX_COUNT && UtcbsApart(s.ids)
    ensures Increasing(Run(s, steps).s.ids) && |Run(s, steps).s.ids| < THREAD_MAX_COUNT
    ensures UtcbsApart(Run(s, steps).s.ids)
    decreases |steps|
  {
    if steps != [] {
      StepKeeps(s, steps[0]);
      StepGrows(s, steps[0]);
      RunGrows(TakeStep(s, steps[0]).s, steps[1..]);
    }
  }

  /** The thread number that a slot of thread_list shows: unused slots hold index 0. */
  function ListedNumber(s: State, slot: nat): nat
    requires |s.ids| > 0
  {
    ThreadNo(s.ids[if slot < |s.ids| then slot else 0].globalId)
  }

  function ListedNumbers(s: State): (nos: seq<nat>)
    requires 0 < |s.ids| <= THREAD_MAX_COUNT
    ensures |nos| == THREAD_MAX_COUNT
  {
    seq(THREAD_MAX_COUNT, i requires 0 <= i < THREAD_MAX_COUNT => ListedNumber(s, i))
  }

  lemma {:induction false} ReachedList(s: State, rootUtcb: Word, utcbs: seq<Utcb>, mem: seq<Byte>, steps: seq<Step>)
    requires |utcbs| == 3 && ActsLocal(BootIds(rootUtcb), rootUtcb) && ReachedBy(s, rootUtcb, utcbs, mem, steps)
    ensures Increasing(s.ids) && |s.ids| < THREAD_MAX_COUNT && UtcbsApart(s.ids)
  {
    var boot := Boot(rootUtcb, utcbs, mem);
    BootInv(rootUtcb, utcbs, mem);
    assert Increasing(boot.ids);
    RunGrows(boot, steps);
  }

  lemma {:induction false} ReachableList(s: State)
    requires Reachable(s)
    ensures Increasing(s.ids) && 0 < |s.ids| < THREAD_MAX_COUNT && UtcbsApart(s.ids)
  {
    var rootUtcb: Word, utcbs: seq<Utcb>, mem: seq<Byte>, steps: seq<Step> :|
      |utcbs| == 3 && ActsLocal(BootIds(rootUtcb), rootUtcb) && ReachedBy(s, rootUtcb, utcbs, mem, steps);
    ReachedList(s, rootUtcb, utcbs, mem, steps);
    ReachableInv(s);
  }

  /** In every reachable state the UTCBs of user threads are apart, so that writing one leaves the others alone. */
  lemma {:induction false} UtcbsApartEver(s: State, i: nat, j: nat)
    requires Reachable(s) && ROOT <= i < |s.ids| && ROOT <= j < |s.ids| && i != j
    ensures s.ids[i].localId + UTCB_SIZE <= s.ids[j].localId || s.ids[j].localId + UTCB_SIZE <= s.ids[i].localId
  {
    ReachableList(s);
    assert !UtcbsMeet(s.ids[i].localId, s.ids[j].localId);
  }

  lemma {:induction false} ListLookup(s: State, id: Word)
    requires Increasing(s.ids) && 0 < |s.ids| < THREAD_MAX_COUNT
    ensures ThreadMap.ListFind(ListedNumbers(s), |s.ids|, ThreadNo(id)) < THREAD_MAX_COUNT
    ensures ThreadMap.MapFind(ListedNumbers(s), |s.ids|, ThreadNo(id)) == Lookup(s.ids, id)
  {
    var nos := ListedNumbers(s);
    assert forall i :: 0 <= i < THREAD_MAX_COUNT ==> nos[i] == ListedNumber(s, i);
    ThreadMap.LookupExact(nos, |s.ids|, ThreadNo(id));
  }

  /** In every reachable state the binary search of the thread list, which the tables hold in the order of the
      threads' numbers, finds exactly the thread that a scan of the threads finds. */
  lemma {:induction false} LookupEver(s: State, id: Word)
    requires Reachable(s)
    ensures 0 < |s.ids| < THREAD_MAX_COUNT &&
      ThreadMap.ListFind(ListedNumbers(s), |s.ids|, ThreadNo(id)) < THREAD_MAX_COUNT
    ensures ThreadMap.MapFind(ListedNumbers(s), |s.ids|, ThreadNo(id)) == Lookup(s.ids, id)
  {
    ReachableList(s);
    ListLookup(s, id);
  }
}
