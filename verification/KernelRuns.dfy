/** What holds in every state that the kernel can reach from its boot state, whatever user threads do
    and whenever alarms go off. */
module KernelRuns {
  import opened Words
  import opened ReadyHeap
  import opened KernelState
  import opened Ipc
  import opened IpcRendezvous
  import opened KernelSystem
  import opened L4Time

  ghost predicate Inv(s: State) {
    && IpcInv(s)
    && |s.ids| > ROOT && s.states[IDLE] == Runnable
    && (s.states[KERNEL] == Inactive || s.states[KERNEL] == Runnable)
    && (s.current < |s.ids| || (s.current == NOBODY && s.states[KERNEL] == Inactive))
    && (s.current < |s.ids| ==> s.states[s.current] == Runnable || s.current == KERNEL)
    && IsThread(s, s.caller)
    && (s.pending ==> s.states[KERNEL] == Runnable && s.caller >= ROOT && Calling(s.states[s.caller]))
  }

  // ---------- The scheduler ----------

  ghost function AllRunnable(s: State): set<nat> {
    set i | 0 <= i < |s.ids| && s.states[i] == Runnable
  }

  lemma {:induction false} RequeueCollects(s: State)
    requires HeapAgrees(s) && |s.ids| <= THREAD_MAX_COUNT
    ensures multiset(Requeue(s).heap) == multiset(AllRunnable(s))
  {
    if s.current < |s.ids| && s.states[s.current] == Runnable {
      HeapHasRoom(s, s.current);
      InsertMultiset(Priorities(s.ids), s.heap, s.current);
      MultisetOfMore(Ready(s), s.current);
      assert AllRunnable(s) == Ready(s) + {s.current};
    } else {
      assert AllRunnable(s) == Ready(s);
    }
  }

  /** Taking member i out of the heap of all runnable threads and running it. */
  lemma {:induction false} PickAgrees(s: State, h: seq<nat>, i: nat, s': State)
    requires multiset(h) == multiset(AllRunnable(s)) && i < |h|
    requires s' == s.(heap := Delete(Priorities(s.ids), h, i), current := h[i])
    ensures CurrentRuns(s') && HeapAgrees(s') && h[i] !in s'.heap
  {
    var all := AllRunnable(s);
    assert h[i] in multiset(h);
    assert h[i] in all;
    DeleteMultiset(Priorities(s.ids), h, i);
    MultisetOfLess(all, h[i]);
    assert Ready(s') == all - {h[i]};
    HeapMembers(s');
  }

  lemma {:induction false} MembersOfMultiset(h: seq<nat>, all: set<nat>)
    requires multiset(h) == multiset(all)
    ensures forall i :: i in h <==> i in all
  {
    assert forall i :: i in h <==> i in multiset(h);
  }

  /** Neither panic of the scheduler is reached while some thread is runnable; the thread it picks is
      runnable and not left in the heap, and a requested runnable thread is the one it picks. */
  lemma {:induction false} ScheduleNextKeeps(s: State, target: Option<nat>)
    requires IpcInv(s) && |s.ids| > IDLE && s.states[IDLE] == Runnable
    ensures ScheduleNext(s, target).Switched?
    ensures var s' := ScheduleNext(s, target).s;
      && s' == s.(heap := s'.heap, current := s'.current)
      && IpcInv(s') && CurrentRuns(s') && s'.current !in s'.heap
      && (target.Some? && IsThread(s, target.value) && s.states[target.value] == Runnable ==>
        s'.current == target.value)
  {
    var h := Requeue(s).heap;
    RequeueCollects(s);
    MembersOfMultiset(h, AllRunnable(s));
    assert IDLE in h;
    var i := if target.Some? && target.value in h then IndexOf(h, target.value) else 0;
    var s' := s.(heap := Delete(Priorities(s.ids), h, i), current := h[i]);
    assert ScheduleNext(s, target) == Switched(s');
    PickAgrees(s, h, i, s');
    SamePeersKeep(s, s');
  }

  /** The invariant of IPC looks at ids, states, partners and the heap only. */
  lemma {:induction false} SamePeersKeep(s: State, s': State)
    requires IpcInv(s) && HeapAgrees(s')
    requires s'.ids == s.ids && s'.states == s.states && s'.peers == s.peers
    ensures IpcInv(s')
  {
    forall snd, rcv | 0 <= snd < |s'.ids| && 0 <= rcv < |s'.ids|
      ensures !Missed(s', snd, rcv)
    {
      assert !Missed(s, snd, rcv);
    }
  }

  /** A thread leaves the waiting states, or moves between states that are no waiting states. */
  lemma {:induction false} MovingKeeps(s: State, t: nat, st: ThreadState)
    requires IpcInv(s) && IsThread(s, t)
    requires st != SendBlocked && st != RecvBlocked
    requires t == s.current && st == Runnable ==> s.states[t] == Runnable
    ensures IpcInv(SetState(s, t, st))
  {
    SetStateAgrees(s, t, st);
    var s' := SetState(s, t, st);
    forall snd, rcv | 0 <= snd < |s'.ids| && 0 <= rcv < |s'.ids|
      ensures !Missed(s', snd, rcv)
    {
      assert !Missed(s, snd, rcv);
    }
  }

  /** A step that ends with a context switch. */
  lemma {:induction false} ReschedKeeps(s: State, target: Option<nat>, ev: seq<Event>)
    requires IpcInv(s) && |s.ids| > ROOT && s.states[IDLE] == Runnable
    requires s.states[KERNEL] == Inactive || s.states[KERNEL] == Runnable
    requires IsThread(s, s.caller)
    requires s.pending ==> s.states[KERNEL] == Runnable && s.caller >= ROOT && Calling(s.states[s.caller])
    ensures Resched(s, target, ev).Next? && Resched(s, target, ev).ev == ev
    ensures var s' := Resched(s, target, ev).s;
      Inv(s') && CurrentRuns(s') && s'.current !in s'.heap && s' == s.(heap := s'.heap, current := s'.current) &&
      (target.Some? && IsThread(s, target.value) && s.states[target.value] == Runnable ==> s'.current == target.value)
  {
    ScheduleNextKeeps(s, target);
  }

  // ---------- System calls ----------

  /** IPC leaves every thread alone that is neither the caller nor waiting for a partner or for its
      start message. */
  ghost predicate OthersLeft(s: State, s': State, t: nat) {
    |s'.ids| == |s.ids| &&
    forall i :: 0 <= i < |s.ids| && i != t && s.states[i] !in {SendBlocked, RecvBlocked, Active} ==>
      s'.states[i] == s.states[i]
  }

  lemma {:induction false} SendLeavesOthers(s: State, t: nat, to: Word, timeout: Time)
    requires IsThread(s, t) && IsTime(timeout) && IpcSend(s, t, to, timeout).Phase?
    ensures OthersLeft(s, IpcSend(s, t, to, timeout).s, t)
  {
    var r := IpcSend(s, t, to, timeout);
    if to != NILTHREAD {
      match FindPartner(s, t, to, true)
      case Found(p) => assert r == SendToPartner(s, t, to, p);
      case PagerMsg(p) => assert r == SendAsPager(s, t, to, p);
      case NotReady => assert r == SendLater(s, t, to, timeout);
      case Nonexistent =>
    }
  }

  lemma {:induction false} OverflowLeavesOthers(s: State, t: nat, from: Word, p: nat)
    requires IsThread(s, t) && IsThread(s, p) && s.states[p] == SendBlocked && CopyPayload(s, p, t).Payload?
    ensures OthersLeft(s, RecvOverflow(CopyPayload(s, p, t).s, t, from, p).s, t)
  {
  }

  lemma {:induction false} LaterLeavesOthers(s: State, t: nat, from: Word, timeout: Time)
    requires IsThread(s, t) && IsTime(timeout) && RecvLater(s, t, from, timeout).Phase?
    ensures OthersLeft(s, RecvLater(s, t, from, timeout).s, t)
  {
    NoTimeoutRefuses(s, t, timeout, RecvBlocked);
  }

  /** The sender p, served, goes on with its own receive phase. */
  lemma {:induction false} ServedLeavesOthers(s: State, t: nat, from: Word, timeout: Time, visited: set<nat>,
      p: nat, s1: State)
    requires Chain(s, t, visited) && IsTime(timeout) && from != NILTHREAD && RecvPeer(from)
    requires FindPartner(s, t, from, false) == Found(p) && CopyPayload(s, p, t) == Payload(s1, NoError)
    requires IpcRecv(s, t, from, timeout, visited).Phase?
    ensures OthersLeft(s, IpcRecv(s, t, from, timeout, visited).s, t)
    decreases Remaining(s, visited), 0
  {
    ServedIs(s, t, from, timeout, visited, p, s1);
    DoIpcLeavesOthers(s1, p, true, visited + {t});
    assert s.states[p] == SendBlocked && s1.states == s.states;
  }

  lemma {:induction false} RecvLeavesOthers(s: State, t: nat, from: Word, timeout: Time, visited: set<nat>)
    requires Chain(s, t, visited) && IsTime(timeout)
    requires IpcRecv(s, t, from, timeout, visited).Phase?
    ensures OthersLeft(s, IpcRecv(s, t, from, timeout, visited).s, t)
    decreases Remaining(s, visited), 1
  {
    if from != NILTHREAD {
      match FindPartner(s, t, from, false)
      case Found(p) =>
        var c := CopyPayload(s, p, t);
        if c.code == NoError {
          ServedLeavesOthers(s, t, from, timeout, visited, p, c.s);
        } else {
          OverflowLeavesOthers(s, t, from, p);
        }
      case Nonexistent =>
      case NotReady => LaterLeavesOthers(s, t, from, timeout);
    }
  }

  lemma {:induction false} DoIpcLeavesOthers(s: State, t: nat, skipSending: bool, visited: set<nat>)
    requires Chain(s, t, visited)
    requires DoIpc(s, t, skipSending, visited).Done?
    ensures OthersLeft(s, DoIpc(s, t, skipSending, visited).s, t)
    decreases Remaining(s, visited), 2
  {
    var regs := s.regs[t];
    var send := if skipSending then Phase(PhaseDone, s, []) else IpcSend(s, t, regs.r0, SendTimeout(regs.r2));
    if !skipSending {
      SendLeavesOthers(s, t, regs.r0, SendTimeout(regs.r2));
    }
    if send.phase == PhaseDone {
      ChainKept(s, send.s, t, visited);
      RecvLeavesOthers(send.s, t, regs.r1, RecvTimeout(regs.r2), visited);
    }
  }

  /** The state in which the kernel thread works for a caller. */
  ghost predicate Serving(s: State) {
    && Inv(s) && s.current == KERNEL && s.pending
  }

  /** What a system call may leave behind. */
  ghost predicate Served(s: State, s': State) {
    && IpcInv(s') && |s'.ids| >= |s.ids| && |s'.ids| > ROOT
    && s'.states[IDLE] == Runnable && s'.states[KERNEL] == Runnable
    && s'.current == KERNEL && s'.caller == s.caller
  }

  /** A change of the ids that keeps every name. */
  lemma {:induction false} RenamingFree(s: State, s': State)
    requires IpcInv(s) && |s'.ids| == |s.ids| && s'.states == s.states && s'.peers == s.peers && s'.current == s.current
    requires forall i :: 0 <= i < |s.ids| ==>
      s'.ids[i].globalId == s.ids[i].globalId && s'.ids[i].localId == s.ids[i].localId
    requires multiset(s'.heap) == multiset(s.heap)
    ensures IpcInv(s')
  {
    assert Ready(s') == Ready(s);
    forall snd, rcv | 0 <= snd < |s'.ids| && 0 <= rcv < |s'.ids|
      ensures !Missed(s', snd, rcv)
    {
      assert !Missed(s, snd, rcv);
    }
  }

  lemma {:induction false} UnblockServes(s: State, s1: State)
    requires Serving(s) && IpcInv(s1) && |s1.ids| >= |s.ids| && s1.caller == s.caller && s1.current == KERNEL
    requires s1.states[IDLE] == Runnable && s1.states[KERNEL] == Runnable
    ensures Served(s, Unblock(s1))
  {
    MovingKeeps(s1, s.caller, Runnable);
  }

  lemma {:induction false} SetPriorityKeeps(s: State, t: nat, prio: nat)
    requires IpcInv(s) && IsThread(s, t)
    ensures IpcInv(SetPriority(s, t, prio))
  {
    var s' := SetPriority(s, t, prio);
    if t in s.heap {
      var r := Sink(Priorities(s'.ids), s.heap, IndexOf(s.heap, t));
      SinkMultiset(Priorities(s'.ids), s.heap, IndexOf(s.heap, t));
      SwimMultiset(Priorities(s'.ids), r.0, r.1);
    }
    RenamingFree(s, s');
  }

  lemma {:induction false} ScheduleChanges(s: State)
    requires IsThread(s, s.caller) && Schedule(s).Some?
    ensures var r := Schedule(s).value;
      exists s1: State :: (s1 == s || exists t: nat, prio: nat :: IsThread(s, t) && s1 == SetPriority(s, t, prio)) &&
        r == s1.(regs := r.regs, utcbs := r.utcbs)
  {
    var regs, r := s.regs[s.caller], Schedule(s).value;
    if r.ids == s.ids && r.heap == s.heap {
      assert r == s.(regs := r.regs, utcbs := r.utcbs);
    } else {
      var dest := Lookup(s.ids, regs.r0).value;
      var s1 := SetPriority(s, dest, regs.r3);
      assert IsThread(s, dest) && s1 == SetPriority(s, dest, regs.r3);
      assert r == s1.(regs := r.regs, utcbs := r.utcbs);
    }
  }

  lemma {:induction false} ScheduleServes(s: State)
    requires Serving(s) && Schedule(s).Some?
    ensures Served(s, Unblock(Schedule(s).value))
  {
    ScheduleChanges(s);
    var r := Schedule(s).value;
    var s1: State :| (s1 == s || exists t: nat, prio: nat :: IsThread(s, t) && s1 == SetPriority(s, t, prio)) &&
                     r == s1.(regs := r.regs, utcbs := r.utcbs);
    if s1 != s {
      var t: nat, prio: nat :| IsThread(s, t) && s1 == SetPriority(s, t, prio);
      SetPriorityKeeps(s, t, prio);
    }
    SamePeersKeep(s1, r);
    UnblockServes(s, r);
  }

  lemma {:induction false} RefusalServes(s: State, e: Word)
    requires Serving(s)
    ensures Served(s, Refuse(s, e)) && Served(s, Unblock(Refuse(s, e)))
  {
    SamePeersKeep(s, Refuse(s, e));
    UnblockServes(s, Refuse(s, e));
  }

  lemma {:induction false} ActivationKeepsInv(s: State, t: nat, starts: bool)
    requires IpcInv(s) && IsThread(s, s.caller) && IsThread(s, t) && ActivateIn(s, t, starts).Done?
    ensures IpcInv(ActivateIn(s, t, starts).s)
  {
    var r := ActivateIn(s, t, starts).s;
    if starts {
      var s1 := SetError(s, t, CallFailure(0));
      SamePeersKeep(s, s1);
      MovingKeeps(s1, t, Active);
      SamePeersKeep(SetState(s1, t, Active), r);
    } else {
      SamePeersKeep(s, r);
    }
  }

  lemma {:induction false} ActivateChanges(s: State, t: nat, starts: bool)
    requires IsThread(s, s.caller) && IsThread(s, t) && ActivateIn(s, t, starts).Done?
    ensures var r := ActivateIn(s, t, starts).s;
      r.peers == s.peers && r.ids == s.ids && r.caller == s.caller && r.current == s.current &&
      (starts ==> t != KERNEL && t != IDLE) && r.states == if starts then s.states[t := Active] else s.states
  {
  }

  lemma {:induction false} EnterSpaceKeeps(s: State, t: nat, utcbPageSet: bool)
    requires IpcInv(s) && IsThread(s, s.caller) && IsThread(s, t)
    ensures var r := EnterSpace(s, t, utcbPageSet);
      IpcInv(r) && r.states == s.states && r.peers == s.peers && r.caller == s.caller && r.current == s.current &&
        |r.ids| == |s.ids|
  {
    var s1 := EnterSpace(s, t, false);
    RenamingFree(s, s1);
    if utcbPageSet {
      SamePeersKeep(s1, Refuse(s1, 6));
    }
  }

  /** SpaceControl past its checks: s1 has the thread's space entered and an error noted, if any. */
  lemma {:induction false} ActivationServes(s: State, s1: State, t: nat, starts: bool)
    requires Serving(s) && IpcInv(s1) && s1.states == s.states && s1.caller == s.caller && s1.current == s.current
    requires |s1.ids| == |s.ids| && IsThread(s, s.caller) && IsThread(s, t) && ActivateIn(s1, t, starts).Done?
    ensures Served(s, Unblock(ActivateIn(s1, t, starts).s))
  {
    ActivateChanges(s1, t, starts);
    ActivationKeepsInv(s1, t, starts);
    UnblockServes(s, ActivateIn(s1, t, starts).s);
  }

  /** The state after a turn of the kernel thread that activates t, whoever it is. */
  function ActivationTurn(s: State, t: nat): State
    requires IsThread(s, s.caller) && IsThread(s, KERNEL) && IsThread(s, t)
  {
    SetState(Unblock(Activate(s, t)).(pending := false), KERNEL, Inactive)
  }

  /** Activating a thread, whatever it is doing, keeps the invariant exactly if it is not the idle thread, whose
      being runnable keeps the scheduler from its panic. The kernel thread is the one that executes the call. */
  lemma {:induction false} ActivationKeepsIff(s: State, t: nat)
    requires Serving(s) && IsThread(s, t) && t != KERNEL
    ensures Inv(ActivationTurn(s, t)) <==> t != IDLE
  {
    var s0 := SetError(s, t, CallFailure(0));
    var s1 := Activate(s, t);
    SamePeersKeep(s, s0);
    MovingKeeps(s0, t, Active);
    MovingKeeps(s1, s.caller, Runnable);
    var s2 := Unblock(s1).(pending := false);
    SamePeersKeep(Unblock(s1), s2);
    MovingKeeps(s2, KERNEL, Inactive);
  }

  /** The scheduler panics exactly when no thread is runnable, never because of the thread asked for. */
  lemma {:induction false} NoTaskIff(s: State, target: Option<nat>)
    requires HeapAgrees(s) && |s.ids| <= THREAD_MAX_COUNT
    ensures ScheduleNext(s, target) == NoTaskPanic <==> forall i :: 0 <= i < |s.ids| ==> s.states[i] != Runnable
    ensures ScheduleNext(s, target) != NotActivePanic
  {
    var h := Requeue(s).heap;
    RequeueCollects(s);
    MembersOfMultiset(h, AllRunnable(s));
    if h != [] {
      assert h[0] in h;
      assert s.states[h[0]] == Runnable;
    }
    if i :| 0 <= i < |s.ids| && s.states[i] == Runnable {
      assert i in h;
    }
  }

  lemma {:induction false} SpaceControlServes(s: State, env: Env)
    requires Serving(s) && SpaceControl(s, env).Done?
    ensures Served(s, Unblock(SpaceControl(s, env).s))
  {
    match Lookup(s.ids, s.regs[s.caller].r0)
    case None => RefusalServes(s, 3);
    case Some(t) =>
      if !env.kipAreaOk {
        RefusalServes(s, 7);
      } else {
        EnterSpaceKeeps(s, t, env.utcbPageSet);
        ActivationServes(s, EnterSpace(s, t, env.utcbPageSet), t, env.utcbInArea && s.ids[t].pager != NILTHREAD);
      }
  }

  lemma {:induction false} CreationNames(ids: seq<Ident>, id: Ident)
    requires Names(ids) && IsGlobalName(id.globalId) && FitsNames(ids, id.globalId, id.localId)
    requires Lookup(ids, id.globalId).None?
    ensures Names(ids + [id])
  {
    var ids' := ids + [id];
    forall i | 0 <= i < |ids'|
      ensures IsGlobalName(ids'[i].globalId) && ActsLocal(ids', ids'[i].localId)
    {
      LookupGrows(ids, id, ids'[i].localId);
    }
  }

  lemma {:induction false} CreateKeeps(s: State, id: Ident, st: ThreadState)
    requires IpcInv(s) && |s.ids| < THREAD_MAX_COUNT && (s.current < |s.ids| || s.current == NOBODY)
    requires IsGlobalName(id.globalId) && FitsNames(s.ids, id.globalId, id.localId) && Lookup(s.ids, id.globalId).None?
    requires st == Inactive || st == Active
    ensures IpcInv(CreateThread(s, id, st))
  {
    var s' := CreateThread(s, id, st);
    assert Ready(s') == Ready(s);
    CreationNames(s.ids, id);
    forall i | 0 <= i < |s'.ids| && (s'.states[i] == SendBlocked || s'.states[i] == RecvBlocked)
      ensures s'.peers[i] == ANYTHREAD || NamesThread(s'.ids, s'.peers[i])
    {
      LookupGrows(s.ids, id, s.peers[i]);
    }
    forall snd, rcv | 0 <= snd < |s'.ids| && 0 <= rcv < |s'.ids|
      ensures !Missed(s', snd, rcv)
    {
      if snd < |s.ids| && rcv < |s.ids| {
        assert !Missed(s, snd, rcv);
      }
    }
  }

  lemma {:induction false} CreationServes(s: State, id: Ident, st: ThreadState)
    requires Serving(s) && |s.ids| < THREAD_MAX_COUNT
    requires IsGlobalName(id.globalId) && FitsNames(s.ids, id.globalId, id.localId) && Lookup(s.ids, id.globalId).None?
    requires st == Inactive || st == Active
    ensures Served(s, Unblock(Answer(CreateThread(s, id, st), 1)))
  {
    var s1 := CreateThread(s, id, st);
    CreateKeeps(s, id, st);
    SamePeersKeep(s1, Answer(s1, 1));
    UnblockServes(s, Answer(s1, 1));
  }

  lemma {:induction false} ThreadControlServes(s: State, env: Env)
    requires Serving(s) && ThreadControl(s, env).Controlled?
    ensures Served(s, ThreadControl(s, env).s)
  {
    var r := ThreadControl(s, env).s;
    if |r.ids| > |s.ids| {
      CreationServes(s, r.ids[|s.ids|], r.states[|s.ids|]);
    } else {
      forall e: Word
        ensures Served(s, Refuse(s, e)) && Served(s, Unblock(Refuse(s, e)))
      {
        RefusalServes(s, e);
      }
    }
  }

  lemma {:induction false} ServeCallerServes(s: State, env: Env)
    requires Serving(s) && Chain(s, s.caller, {}) && ServeCaller(s, env).Done?
    ensures Served(s, ServeCaller(s, env).s)
  {
    var no := s.regs[s.caller].r7;
    if no == SYS_KERNEL_INTERFACE {
      SamePeersKeep(s, KernelInterface(s, env));
      UnblockServes(s, KernelInterface(s, env));
    } else if no == SYS_SPACE_CONTROL {
      SpaceControlServes(s, env);
    } else if no == SYS_THREAD_CONTROL {
      ThreadControlServes(s, env);
    } else if no == SYS_IPC {
      DoIpcKeeps(s, s.caller, false, {});
      DoIpcLeavesOthers(s, s.caller, false, {});
    } else if no == SYS_UNMAP {
      UnblockServes(s, s);
    } else if no == SYS_SCHEDULE {
      ScheduleServes(s);
    }
  }

  // ---------- Steps and runs ----------

  lemma {:induction false} CallerCanIpc(s: State)
    requires Inv(s) && s.pending
    ensures Chain(s, s.caller, {})
  {
  }

  /** One step keeps the invariant and never panics in the scheduler. */
  lemma {:induction false} StepKeeps(s: State, step: Step)
    requires Inv(s) && Enabled(s, step)
    ensures s.pending ==> Chain(s, s.caller, {})
    ensures TakeStep(s, step) != SchedulerPanic
    ensures TakeStep(s, step).Next? ==> Inv(TakeStep(s, step).s)
  {
    if s.pending {
      CallerCanIpc(s);
    }
    match step
    case UserRun(_, _, _) => SamePeersKeep(s, TakeStep(s, step).s);
    case SupervisorCall(regs) => CallKeeps(s, regs);
    case ThreadSwitch(dest) =>
      if s.current != KERNEL {
        MovingKeeps(s, s.current, Paused);
        ReschedKeeps(SetState(s, s.current, Paused), Lookup(s.ids, dest), []);
      } else {
        ReschedKeeps(s, Lookup(s.ids, dest), []);
      }
    case KernelTurn(env) => KernelTurnKeeps(s, env);
    case UnpauseAlarm(t) =>
      MovingKeeps(s, t, Runnable);
      ReschedKeeps(SetState(s, t, Runnable), None, Interrupts(s, t));
    case TimeoutAlarm(t) => TimeoutKeeps(s, t);
    case RescheduleAlarm => ReschedKeeps(s, None, []);
  }

  /** A supervisor call blocks the caller and hands the processor to the kernel thread. */
  lemma {:induction false} CallKeeps(s: State, regs: Regs)
    requires Inv(s) && Enabled(s, SupervisorCall(regs))
    requires s.pending ==> Chain(s, s.caller, {})
    ensures var r := TakeStep(s, SupervisorCall(regs));
      r.Next? && r.ev == [] && Inv(r.s) && r.s.current == KERNEL && r.s.pending && r.s.caller == s.current &&
        r.s.regs[s.current] == regs
  {
    var s0 := s.(caller := s.current, regs := s.regs[s.current := regs]);
    SamePeersKeep(s, s0);
    MovingKeeps(s0, s.current, SvcBlocked);
    var s1 := SetState(s0, s.current, SvcBlocked);
    var s1' := s1.(pending := true);
    SamePeersKeep(s1, s1');
    MovingKeeps(s1', KERNEL, Runnable);
    ReschedKeeps(SetState(s1', KERNEL, Runnable), Some(KERNEL), []);
  }

  lemma {:induction false} KernelTurnKeeps(s: State, env: Env)
    requires Inv(s) && Enabled(s, KernelTurn(env))
    requires s.pending ==> Chain(s, s.caller, {})
    ensures TakeStep(s, KernelTurn(env)) != SchedulerPanic
    ensures TakeStep(s, KernelTurn(env)).Next? ==> Inv(TakeStep(s, KernelTurn(env)).s)
  {
    var served := if s.pending then ServeCaller(s, env) else Done(s, []);
    if served.Done? {
      if s.pending {
        ServeCallerServes(s, env);
      }
      var s1 := served.s.(pending := false);
      SamePeersKeep(served.s, s1);
      MovingKeeps(s1, KERNEL, Inactive);
    }
  }

  lemma {:induction false} TimeoutKeeps(s: State, t: nat)
    requires Inv(s) && IsThread(s, t)
    ensures Inv(IpcTimeout(s, t).s)
  {
    if s.states[t] == RecvBlocked || s.states[t] == SendBlocked {
      var s1 := SetError(FlagError(s, t), t, IpcFailure(s.states[t] == RecvBlocked, IpcError.Timeout));
      SamePeersKeep(s, s1);
      MovingKeeps(s1, t, Runnable);
    }
  }

  // ---------- The thread list ----------

  /** No two user threads' UTCBs meet. */
  ghost predicate UtcbsApart(ids: seq<Ident>) {
    forall i, j :: ROOT <= i < |ids| && ROOT <= j < |ids| && i != j ==> !UtcbsMeet(ids[i].localId, ids[j].localId)
  }

  /** Threads keep their numbers, a new one has the largest, and none is the sixteenth. */
  ghost predicate ListGrows(ids: seq<Ident>, ids': seq<Ident>) {
    Extends(ids, ids') && (Increasing(ids) ==> Increasing(ids')) && (|ids'| == |ids| || |ids'| < THREAD_MAX_COUNT) &&
    (UtcbsApart(ids) ==> UtcbsApart(ids'))
  }

  lemma {:induction false} SameNumbersGrow(ids: seq<Ident>, ids': seq<Ident>)
    requires |ids'| == |ids|
    requires forall i :: 0 <= i < |ids| ==> ids'[i].globalId == ids[i].globalId && ids'[i].localId == ids[i].localId
    ensures ListGrows(ids, ids')
  {
  }

  lemma {:induction false} ThreadControlGrows(s: State, env: Env)
    requires IsThread(s, s.caller) && ThreadControl(s, env).Controlled?
    ensures ListGrows(s.ids, ThreadControl(s, env).s.ids)
  {
    var r := ThreadControl(s, env).s;
    if |r.ids| > |s.ids| {
      var regs, id := s.regs[s.caller], r.ids[|s.ids|];
      assert Fits(s.ids, regs.r0, regs.r4);
      assert id.globalId == regs.r0 && id.localId == regs.r4 && r.ids == s.ids + [id];
    } else {
      SameNumbersGrow(s.ids, r.ids);
    }
  }

  lemma {:induction false} SpaceControlGrows(s: State, env: Env)
    requires IsThread(s, s.caller) && SpaceControl(s, env).Done?
    ensures ListGrows(s.ids, SpaceControl(s, env).s.ids)
  {
    SameNumbersGrow(s.ids, SpaceControl(s, env).s.ids);
  }

  lemma {:induction false} ScheduleGrows(s: State)
    requires IsThread(s, s.caller) && Schedule(s).Some?
    ensures ListGrows(s.ids, Schedule(s).value.ids)
  {
    SameNumbersGrow(s.ids, Schedule(s).value.ids);
  }

  lemma {:induction false} ServingGrows(s: State, env: Env)
    requires IsThread(s, s.caller) && Chain(s, s.caller, {}) && ServeCaller(s, env).Done?
    ensures ListGrows(s.ids, ServeCaller(s, env).s.ids)
  {
    var no := s.regs[s.caller].r7;
    if no == SYS_THREAD_CONTROL {
      ThreadControlGrows(s, env);
    } else if no == SYS_SPACE_CONTROL {
      SpaceControlGrows(s, env);
    } else if no == SYS_SCHEDULE {
      ScheduleGrows(s);
    } else {
      assert ServeCaller(s, env).s.ids == s.ids;
    }
  }

  lemma {:induction false} KernelTurnGrows(s: State, env: Env)
    requires Inv(s) && Enabled(s, KernelTurn(env)) && (s.pending ==> Chain(s, s.caller, {}))
    requires TakeStep(s, KernelTurn(env)).Next?
    ensures ListGrows(s.ids, TakeStep(s, KernelTurn(env)).s.ids)
  {
    if s.pending {
      ServingGrows(s, env);
      assert TakeStep(s, KernelTurn(env)).s.ids == ServeCaller(s, env).s.ids;
    }
  }

  lemma {:induction false} ReschedKeepsIds(s: State, target: Option<nat>, ev: seq<Event>)
    requires Resched(s, target, ev).Next?
    ensures Resched(s, target, ev).s.ids == s.ids
  {
  }

  lemma {:induction false} OtherStepsKeepIds(s: State, step: Step)
    requires Inv(s) && Enabled(s, step) && !step.KernelTurn? && (s.pending ==> Chain(s, s.caller, {})) &&
      TakeStep(s, step).Next?
    ensures TakeStep(s, step).s.ids == s.ids
  {
    match step
    case UserRun(_, _, _) =>
    case SupervisorCall(regs) =>
      var s1 := SetState(s.(caller := s.current, regs := s.regs[s.current := regs]), s.current, SvcBlocked);
      ReschedKeepsIds(SetState(s1.(pending := true), KERNEL, Runnable), Some(KERNEL), []);
    case ThreadSwitch(dest) =>
      var s1 := if s.current != KERNEL then SetState(s, s.current, Paused) else s;
      ReschedKeepsIds(s1, Lookup(s1.ids, dest), []);
    case UnpauseAlarm(t) => ReschedKeepsIds(SetState(s, t, Runnable), None, Interrupts(s, t));
    case TimeoutAlarm(t) => assert IpcTimeout(s, t).s.ids == s.ids;
    case RescheduleAlarm => ReschedKeepsIds(s, None, []);
  }

  /** A step neither renumbers threads nor takes any away, and a new one has the largest number and is not the
      sixteenth. */
  lemma {:induction false} StepGrows(s: State, step: Step)
    requires Inv(s) && Enabled(s, step) && (s.pending ==> Chain(s, s.caller, {})) && TakeStep(s, step).Next?
    ensures ListGrows(s.ids, TakeStep(s, step).s.ids)
  {
    if step.KernelTurn? {
      KernelTurnGrows(s, step.env);
    } else {
      OtherStepsKeepIds(s, step);
    }
  }
}
