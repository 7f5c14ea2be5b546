/** What the caller of a system call other than IPC gets: its answer and error number, and the effect on the thread it
    named. */
module KernelAnswers {
  import opened HeapOrder
  import opened Ipc
  import opened IpcRendezvous
  import opened KernelRuns
  import opened KernelSchedule
  import opened KernelState
  import opened KernelSystem
  import opened KernelTheorems
  import opened ReadyHeap
  import opened Words

  /** The caller is told of an error. */
  predicate Refused(s: State, r: State, error: nat)
    requires IsThread(s, s.caller) && IsThread(r, s.caller)
  {
    r.regs[s.caller] == s.regs[s.caller].(r0 := 0) &&
      r.utcbs[s.caller] == s.utcbs[s.caller].(error := CallFailure(error))
  }

  /** Nothing happened to the threads' identities, nor to the tables of anyone but the caller. */
  predicate NothingElse(s: State, r: State)
    requires IsThread(s, s.caller)
  {
    r.ids == s.ids && r.spaces == s.spaces && r.peers == s.peers && r.entries == s.entries && r.mem == s.mem &&
    forall w :: 0 <= w < |s.ids| && w != s.caller ==>
      r.regs[w] == s.regs[w] && r.utcbs[w] == s.utcbs[w] && r.states[w] == s.states[w]
  }

  lemma {:induction false} RefusedIs(s: State, error: nat)
    requires IsThread(s, s.caller)
    ensures var r := Refuse(s, error);
      IsThread(r, s.caller) && Refused(s, r, error) && NothingElse(s, r) && r.states == s.states
    ensures var r := Unblock(Refuse(s, error));
      IsThread(r, s.caller) && Refused(s, r, error) && NothingElse(s, r) && r.states == s.states[s.caller := Runnable]
  {
  }

  // ---------- thread_control ----------

  /** The number is a system thread's. */
  predicate Reserved(dest: Word) {
    dest != NILTHREAD && ThreadNo(dest) < 64
  }

  /** The space specifier names no thread, unless it is the new thread itself, or one without an address space. */
  predicate NoSpace(s: State, dest: Word, space: Word) {
    SameThreads(space, NILTHREAD) || (Lookup(s.ids, space).None? && !SameThreads(dest, space)) ||
    (Lookup(s.ids, space).Some? && s.ids[Lookup(s.ids, space).value].space == 0)
  }

  predicate NoScheduler(s: State, scheduler: Word) {
    scheduler != NILTHREAD && Lookup(s.ids, scheduler).None?
  }

  predicate UtcbOutside(s: State, space: Word, env: Env) {
    Lookup(s.ids, space).Some? && !env.utcbInArea
  }

  /** A call that creates: the refusals in their order, and otherwise a new thread. */
  lemma {:induction false} CreationAnswers(s: State, env: Env)
    requires IsThread(s, s.caller) && ThreadControl(s, env).Controlled?
    ensures var r, regs := ThreadControl(s, env).s, s.regs[s.caller];
      var noSpace, noScheduler := NoSpace(s, regs.r0, regs.r1), NoScheduler(s, regs.r2);
      var outside := UtcbOutside(s, regs.r1, env);
      && IsThread(r, s.caller)
      && (Reserved(regs.r0) ==> Refused(s, r, 1) && NothingElse(s, r))
      && (!Reserved(regs.r0) && noSpace ==> Refused(s, r, 3) && NothingElse(s, r))
      && (!Reserved(regs.r0) && !noSpace && noScheduler ==> Refused(s, r, 4) && NothingElse(s, r))
      && (!Reserved(regs.r0) && !noSpace && !noScheduler && outside ==> Refused(s, r, 7) && NothingElse(s, r))
      && (!Reserved(regs.r0) && !noSpace && !noScheduler && !outside ==>
            |r.ids| == |s.ids| + 1 && r.regs[s.caller] == regs.(r0 := 1) && r.utcbs[s.caller] == s.utcbs[s.caller])
      && (!Reserved(regs.r0) ==> r.states[s.caller] == Runnable)
  {
    var regs := s.regs[s.caller];
    RefusedIs(s, 1);
    if !Reserved(regs.r0) {
      match CreationError(s, env)
      case Some(error) => RefusedIs(s, error);
      case None => CreatedIs(s);
    }
  }

  lemma {:induction false} CreatedIs(s: State)
    requires IsThread(s, s.caller) && Creation(s).Controlled?
    ensures var r := Creation(s).s;
      |r.ids| == |s.ids| + 1 && r.regs[s.caller] == s.regs[s.caller].(r0 := 1) &&
      r.utcbs[s.caller] == s.utcbs[s.caller] && r.states[s.caller] == Runnable
  {
  }

  /** The new thread waits for its pager exactly if it has one and its space's thread exists; otherwise it is inactive.
      Its space is that thread's, its scheduler r2, its pager r3, its UTCB r4 and its priority 42. */
  lemma {:induction false} NewThreadIs(s: State, env: Env)
    requires IsThread(s, s.caller) && ThreadControl(s, env).Controlled? && |ThreadControl(s, env).s.ids| > |s.ids|
    ensures var r, regs := ThreadControl(s, env).s, s.regs[s.caller];
      var n, space := |s.ids|, Lookup(s.ids, regs.r1);
      && |r.ids| == n + 1 && r.ids[..n] == s.ids && r.states[..n] == s.states[s.caller := Runnable]
      && (r.states[n] == Active <==> regs.r3 != NILTHREAD && space.Some?) &&
        (r.states[n] != Active ==> r.states[n] == Inactive)
      && r.ids[n].globalId == regs.r0 && r.ids[n].localId == regs.r4 && r.ids[n].pager == regs.r3
      && r.ids[n].scheduler == regs.r2 && r.ids[n].priority == 42
      && r.ids[n].space == (if space.Some? then s.ids[space.value].space else 0)
  {
  }

  // ---------- space_control ----------

  lemma {:induction false} EnteredIs(s: State, t: nat, utcbPageSet: bool)
    requires IsThread(s, s.caller) && IsThread(s, t)
    ensures var r := EnterSpace(s, t, utcbPageSet);
      var homeless := s.ids[t].space == 0;
      && r.caller == s.caller && r.states == s.states && r.spaces == s.spaces + (if homeless then 1 else 0)
      && r.ids == s.ids[t := s.ids[t].(space := if homeless then s.spaces + 1 else s.ids[t].space)]
  {
  }

  lemma {:induction false} ActivatedIs(s: State, t: nat, starts: bool)
    requires IsThread(s, s.caller) && IsThread(s, t) && ActivateIn(s, t, starts).Done?
    ensures var r := ActivateIn(s, t, starts).s;
      && r.ids == s.ids && r.spaces == s.spaces && r.regs[s.caller].r0 == 1 && r.regs[s.caller].r1 == 0
      && r.states == (if starts then s.states[t := Active] else s.states)
  {
  }

  /** The answer is 1 whenever the thread exists and the kernel interface area is the right one, even if a UTCB area was
      set before, of which only the error word tells. A thread without an address space gets a new one. */
  lemma {:induction false} SpaceAnswers(s: State, env: Env)
    requires IsThread(s, s.caller) && SpaceControl(s, env).Done?
    ensures var r, t := SpaceControl(s, env).s, Lookup(s.ids, s.regs[s.caller].r0);
      && |r.ids| == |s.ids| && IsThread(r, s.caller)
      && (t.None? ==> Refused(s, r, 3) && NothingElse(s, r))
      && (t.Some? && !env.kipAreaOk ==> Refused(s, r, 7) && NothingElse(s, r))
      && (t.Some? && env.kipAreaOk ==>
            && r.regs[s.caller].r0 == 1 && r.regs[s.caller].r1 == 0
            && r.spaces == s.spaces + (if s.ids[t.value].space == 0 then 1 else 0)
            && r.ids == s.ids[t.value := s.ids[t.value].(space :=
                 if s.ids[t.value].space == 0 then s.spaces + 1 else s.ids[t.value].space)]
            && r.states == (if env.utcbInArea &&
              s.ids[t.value].pager != NILTHREAD then s.states[t.value := Active] else s.states))
  {
    match Lookup(s.ids, s.regs[s.caller].r0)
    case None => RefusedIs(s, 3);
    case Some(t) =>
      if !env.kipAreaOk {
        RefusedIs(s, 7);
      } else {
        EnteredIs(s, t, env.utcbPageSet);
        ActivatedIs(EnterSpace(s, t, env.utcbPageSet), t, env.utcbInArea && s.ids[t].pager != NILTHREAD);
      }
  }

  /** The error word after a space_control that got past its checks: zero for the thread it activates, 6 for the caller
      if the UTCB area had been set, unless the caller activated itself. */
  lemma {:induction false} SpaceErrors(s: State, env: Env, t: nat)
    requires IsThread(s, s.caller) && SpaceControl(s, env).Done? && Lookup(s.ids, s.regs[s.caller].r0) == Some(t)
    requires env.kipAreaOk
    ensures var r, starts := SpaceControl(s, env).s, env.utcbInArea && s.ids[t].pager != NILTHREAD;
      && (starts ==> r.utcbs[t].error == CallFailure(0))
      && (!starts || t != s.caller ==>
            r.utcbs[s.caller].error == if env.utcbPageSet then CallFailure(6) else s.utcbs[s.caller].error)
  {
  }

  // ---------- schedule and the kernel interface ----------

  /** The thread's scheduler is missing or in another address space than the caller. */
  predicate NotItsScheduler(s: State, dest: nat)
    requires IsThread(s, s.caller) && IsThread(s, dest)
  {
    var scheduler := Lookup(s.ids, s.ids[dest].scheduler);
    scheduler.None? || s.ids[scheduler.value].space != s.ids[s.caller].space
  }

  /** A processor other than the one there is, or a priority number below the caller's own. */
  predicate BadParameters(s: State)
    requires IsThread(s, s.caller)
  {
    var regs := s.regs[s.caller];
    (regs.r2 != 0xFFFF_FFFF && regs.r2 != 0) || (regs.r3 != 0xFFFF_FFFF && regs.r3 < s.ids[s.caller].priority)
  }

  /** A schedule call: the refusals in their order; otherwise the thread's state is the answer and its priority the one
      asked for, or as it was for all ones, and no other thread's priority changes. */
  lemma {:induction false} ScheduleAnswers(s: State)
    requires IsThread(s, s.caller) && Schedule(s).Some?
    ensures var r, regs := Schedule(s).value, s.regs[s.caller];
      var dest := Lookup(s.ids, regs.r0);
      && |r.ids| == |s.ids| && IsThread(r, s.caller) && r.states == s.states
      && (dest.None? ==> Refused(s, r, 2) && NothingElse(s, r))
      && (dest.Some? && NotItsScheduler(s, dest.value) ==> Refused(s, r, 1) && NothingElse(s, r))
      && (dest.Some? && !NotItsScheduler(s, dest.value) && BadParameters(s) ==> Refused(s, r, 5) && NothingElse(s, r))
      && (dest.Some? && !NotItsScheduler(s, dest.value) && !BadParameters(s) ==>
            && regs.r4 == 0xFFFF_FFFF
            && r.regs[s.caller].r0 == StateCode(s.states[dest.value]) && r.regs[s.caller].r1 == 0 && r.utcbs == s.utcbs
            && r.ids == s.ids[dest.value := s.ids[dest.value].(priority :=
                 if regs.r3 == 0xFFFF_FFFF then s.ids[dest.value].priority else regs.r3)])
  {
  }

  /** The numbers of include/l4/schedule.h: dead, 1, for a paused thread, inactive 2, running 3, about to send 4, about
      to
      receive 6, and receiving, 7, for one that waits for its pager or for the kernel. */
  function StateCode(st: ThreadState): nat {
    if st == Paused then 1
    else if st == Inactive then 2
    else if st == Runnable then 3
    else if st == SendBlocked then 4
    else if st == RecvBlocked then 6
    else 7
  }

  lemma {:induction false} InterfaceAnswers(s: State, env: Env)
    requires IsThread(s, s.caller)
    ensures var r := KernelInterface(s, env);
      r == s.(regs := r.regs) && r.regs[s.caller].r0 == env.kip0 && r.regs[s.caller].r1 == env.kip1 &&
      r.regs[s.caller].r2 == env.kip2 && r.regs[s.caller].r3 == env.kip3 &&
      forall w :: 0 <= w < |s.ids| && w != s.caller ==> r.regs[w] == s.regs[w]
  {
  }

  /** The calls by their numbers: first the kernel's own tables, spaces and threads. */
  lemma {:induction false} LowCallNumbers(s: State, env: Env)
    requires IsThread(s, s.caller) && Chain(s, s.caller, {}) && s.regs[s.caller].r7 <= 4
    ensures var no, r := s.regs[s.caller].r7, ServeCaller(s, env);
      && (no == 0 ==> r == Done(Unblock(KernelInterface(s, env)), []))
      && (no == 1 ==> (r.Done? <==> SpaceControl(s, env).Done?) && (r.Done? ==> r.s == Unblock(SpaceControl(s, env).s)))
      && (no == 2 ==> (r.Done? <==> ThreadControl(s, env).Controlled?) && (r.Done? ==> r.s == ThreadControl(s, env).s))
      && (no > 2 ==> r == Halt)
  {
  }

  /** Then IPC, unmap and schedule; a number above the last one is not answered. */
  lemma {:induction false} HighCallNumbers(s: State, env: Env)
    requires IsThread(s, s.caller) && Chain(s, s.caller, {}) && s.regs[s.caller].r7 > 4
    ensures var no, r := s.regs[s.caller].r7, ServeCaller(s, env);
      && (no == 5 ==> r == DoIpc(s, s.caller, false, {}))
      && (no == 7 ==> r == Done(Unblock(s), []))
      && (no == 11 ==> (r.Done? <==> Schedule(s).Some?) && (r.Done? ==> r.s == Unblock(Schedule(s).value)))
      && (no > 11 ==> r == Done(s, []))
      && (no == 6 || 8 <= no <= 10 ==> r == Halt)
  {
  }

  // ---------- thread_switch and the start ----------

  /** The id of a thread that waits for the processor. */
  predicate Waits(s: State, dest: Word) {
    var t := Lookup(s.ids, dest);
    t.Some? && t.value != s.current && s.states[t.value] == Runnable
  }

  /** A user thread that switches is paused; the thread it names runs next if it waits for the processor, and otherwise
      some other thread does. */
  lemma {:induction false} SwitchAnswers(s: State, dest: Word)
    requires Inv(s) && UserRuns(s) && (s.pending ==> Chain(s, s.caller, {}))
    ensures var r := TakeStep(s, ThreadSwitch(dest));
      && r.Next? && r.s.ids == s.ids && r.s.states == s.states[s.current := Paused] && r.s.current != s.current
      && r.s.current < |s.ids| && s.states[r.s.current] == Runnable
      && (Waits(s, dest) ==> r.s.current == Lookup(s.ids, dest).value)
  {
    var s1 := SetState(s, s.current, Paused);
    MovingKeeps(s, s.current, Paused);
    ReschedKeeps(s1, Lookup(s.ids, dest), []);
    assert TakeStep(s, ThreadSwitch(dest)) == Resched(s1, Lookup(s1.ids, dest), []);
  }

  /** An alarm that ends a pause makes its thread runnable and picks the next to run. */
  lemma {:induction false} UnpauseAnswers(s: State, t: nat)
    requires Inv(s) && Enabled(s, UnpauseAlarm(t)) && (s.pending ==> Chain(s, s.caller, {}))
    ensures var r := TakeStep(s, UnpauseAlarm(t));
      && r.Next? && r.s.ids == s.ids && r.s.states == s.states[t := Runnable]
      && r.s.current < |s.ids| && r.s.states[r.s.current] == Runnable
  {
    MovingKeeps(s, t, Runnable);
    ReschedKeeps(SetState(s, t, Runnable), None, Interrupts(s, t));
  }

  /** The first switch after the system threads are created runs the root thread. */
  lemma {:induction false} RootRunsFirst(rootUtcb: Word, utcbs: seq<Utcb>, mem: seq<Byte>)
    requires |utcbs| == 3 && ActsLocal(BootIds(rootUtcb), rootUtcb)
    ensures ScheduleNext(Boot(rootUtcb, utcbs, mem), None).Switched?
    ensures ScheduleNext(Boot(rootUtcb, utcbs, mem), None).s.current == ROOT
  {
    var s := Boot(rootUtcb, utcbs, mem);
    BootInv(rootUtcb, utcbs, mem);
    var prio := Priorities(s.ids);
    assert s.states == [Inactive, Runnable, Runnable];
    assert prio == [0, ALL_ONES, 42];
    InsertKeepsOrder(prio, [], IDLE);
    InsertKeepsOrder(prio, Insert(prio, [], IDLE), ROOT);
    PicksMostUrgent(s, ROOT);
    ScheduleNextKeeps(s, None);
  }
}
