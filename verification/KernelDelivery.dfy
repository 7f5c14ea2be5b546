/** Exactly-once delivery over whole runs of the kernel. */
module KernelDelivery {
  import opened Words
  import opened KernelState
  import opened Ipc
  import opened IpcDelivery
  import opened IpcExactlyOnce
  import opened IpcPhases
  import opened KernelSystem
  import opened KernelRuns
  import opened KernelTheorems

  function RoleAt(s: State, w: nat): Role {
    if w < |s.ids| then RoleOf(s, w) else Idle
  }

  /** No thread began or ended a phase; new threads are in none. */
  ghost predicate RolesKept(s: State, s': State) {
    forall w: nat :: RoleAt(s', w) == RoleAt(s, w)
  }

  /** The roles in s, with idle threads up to n. */
  function Padded(s: State, n: nat): (m: seq<Role>)
    requires |s.ids| <= n
    ensures |m| == n && forall w :: 0 <= w < n ==> m[w] == RoleAt(s, w)
  {
    Roles(s) + seq(n - |s.ids|, _ => Idle)
  }

  /** The monitor is led by ev from the roles in s to those in s', new threads being idle at first. */
  ghost predicate Observed(s: State, ev: seq<Event>, s': State) {
    Extends(s.ids, s'.ids) && ObserveAll(s'.ids, Padded(s, |s'.ids|), ev) == Some(Roles(s'))
  }

  lemma {:induction false} KeptObserved(s: State, s': State)
    requires Extends(s.ids, s'.ids) && RolesKept(s, s')
    ensures Observed(s, [], s')
  {
    forall w | 0 <= w < |s'.ids|
      ensures Padded(s, |s'.ids|)[w] == Roles(s')[w]
    {
      assert RoleAt(s', w) == RoleAt(s, w);
    }
    assert Padded(s, |s'.ids|) == Roles(s');
  }

  lemma {:induction false} SameThreadsObserved(s: State, ev: seq<Event>, s': State)
    requires s'.ids == s.ids && ObserveAll(s.ids, Roles(s), ev) == Some(Roles(s'))
    ensures Observed(s, ev, s')
  {
    assert Padded(s, |s.ids|) == Roles(s);
  }

  /** One event among more threads of the same names. */
  lemma {:induction false} GrownOnce(ids: seq<Ident>, ids': seq<Ident>, m: seq<Role>, idle: seq<Role>, e: Event)
    requires Extends(ids, ids') && |m| == |ids| && |m + idle| == |ids'| && Observe(ids, m, e).Some?
    ensures Observe(ids', m + idle, e) == Some(Observe(ids, m, e).value + idle)
  {
    var m' := Observe(ids, m, e).value;
    assert Observe(ids', m + idle, e).Some?;
    assert Observe(ids', m + idle, e).value == m' + idle;
  }

  /** What is accepted stays accepted among more threads of the same names. */
  lemma {:induction false} GrownObserved(ids: seq<Ident>, ids': seq<Ident>, m: seq<Role>, idle: seq<Role>,
      ev: seq<Event>)
    requires Extends(ids, ids') && |m| == |ids| && |m + idle| == |ids'| && ObserveAll(ids, m, ev).Some?
    ensures ObserveAll(ids', m + idle, ev) == Some(ObserveAll(ids, m, ev).value + idle)
    decreases |ev|
  {
    if ev != [] {
      GrownOnce(ids, ids', m, idle, ev[0]);
      GrownObserved(ids, ids', Observe(ids, m, ev[0]).value, idle, ev[1..]);
    }
  }

  lemma {:induction false} ObservedCompose(s: State, ev: seq<Event>, s1: State, ev1: seq<Event>, s2: State)
    requires Observed(s, ev, s1) && Observed(s1, ev1, s2)
    ensures Observed(s, ev + ev1, s2)
  {
    var n := |s2.ids|;
    var idle := seq(n - |s1.ids|, _ => Idle);
    GrownObserved(s1.ids, s2.ids, Padded(s, |s1.ids|), idle, ev);
    assert Padded(s, |s1.ids|) + idle == Padded(s, n);
    ObserveConcat(s2.ids, Padded(s, n), ev, ev1);
  }

  // ---------- Single steps ----------

  /** An IPC call's events lead the monitor from the roles before to the roles after. */
  lemma {:induction false} IpcCallObserved(s: State)
    requires Serving(s) && Chain(s, s.caller, {})
    requires DoIpc(s, s.caller, false, {}).Done?
    ensures var r := DoIpc(s, s.caller, false, {});
      ObserveAll(s.ids, Roles(s), r.ev) == Some(Roles(r.s))
  {
    DoIpcObserved(s, s.caller, Roles(s));
    var r := DoIpc(s, s.caller, false, {});
    assert ObserveAll(s.ids, Roles(s), r.ev).value == Roles(r.s);
  }

  lemma {:induction false} ScheduleKeepsRoles(s: State)
    requires IsThread(s, s.caller) && Calling(s.states[s.caller]) && Schedule(s).Some?
    ensures RolesKept(s, Unblock(Schedule(s).value))
  {
    assert Schedule(s).value.states == s.states && Schedule(s).value.peers == s.peers;
  }

  lemma {:induction false} OtherCallsKeepRoles(s: State, env: Env)
    requires Serving(s) && Chain(s, s.caller, {}) && ServeCaller(s, env).Done?
    requires s.regs[s.caller].r7 != SYS_IPC && s.regs[s.caller].r7 != SYS_SPACE_CONTROL
    ensures RolesKept(s, ServeCaller(s, env).s) && ServeCaller(s, env).ev == []
  {
    var no := s.regs[s.caller].r7;
    if no == SYS_THREAD_CONTROL {
      ThreadControlKeepsRoles(s, env);
    } else if no == SYS_SCHEDULE {
      ScheduleKeepsRoles(s);
    }
  }

  /** A thread is taken out of the phase it is in, if any, and nobody else's phase begins or ends. */
  lemma {:induction false} InterruptsObserved(s: State, t: nat, s': State)
    requires IsThread(s, t) && |s'.ids| == |s.ids| && Extends(s.ids, s'.ids)
    requires RoleOf(s', t) == Idle && forall w :: 0 <= w < |s.ids| && w != t ==> RoleOf(s', w) == RoleOf(s, w)
    ensures Observed(s, Interrupts(s, t), s')
  {
    assert Roles(s') == Roles(s)[t := Idle] && Padded(s, |s'.ids|) == Roles(s);
    if Interrupts(s, t) != [] {
      ObserveOne(s'.ids, Roles(s), Interrupts(s, t)[0]);
    } else {
      assert Roles(s)[t := Idle] == Roles(s);
    }
  }

  lemma {:induction false} NothingInterrupted(s: State, r: State)
    requires Serving(s) && IsThread(s, s.caller) && r.caller == s.caller && r.states == s.states && r.peers == s.peers
    requires |r.ids| == |s.ids| && Extends(s.ids, r.ids)
    ensures Observed(s, [], Unblock(r))
  {
    assert RolesKept(s, Unblock(r));
    KeptObserved(s, Unblock(r));
  }

  /** SpaceControl past its checks: s1 has the thread's space entered and an error noted, if any. */
  lemma {:induction false} ActivationObserved(s: State, s1: State, t: nat, starts: bool)
    requires Serving(s) && IsThread(s, s.caller) && IsThread(s, t) && s1.states == s.states && s1.peers == s.peers
    requires s1.caller == s.caller && |s1.ids| == |s.ids| && Extends(s.ids, s1.ids) && ActivateIn(s1, t, starts).Done?
    ensures var r := ActivateIn(s1, t, starts); Observed(s, r.ev, Unblock(r.s))
  {
    var r := ActivateIn(s1, t, starts);
    ActivateChanges(s1, t, starts);
    if starts {
      assert r.ev == Interrupts(s, t);
      InterruptsObserved(s, t, Unblock(r.s));
    } else {
      NothingInterrupted(s, r.s);
    }
  }

  lemma {:induction false} SpaceControlObserved(s: State, env: Env)
    requires Serving(s) && SpaceControl(s, env).Done?
    ensures Observed(s, SpaceControl(s, env).ev, Unblock(SpaceControl(s, env).s))
  {
    match Lookup(s.ids, s.regs[s.caller].r0)
    case None => NothingInterrupted(s, Refuse(s, 3));
    case Some(t) =>
      if !env.kipAreaOk {
        NothingInterrupted(s, Refuse(s, 7));
      } else {
        EnterSpaceKeeps(s, t, env.utcbPageSet);
        ActivationObserved(s, EnterSpace(s, t, env.utcbPageSet), t, env.utcbInArea && s.ids[t].pager != NILTHREAD);
      }
  }

  lemma {:induction false} CreationKeepsRoles(s: State, id: Ident, st: ThreadState)
    requires Serving(s) && IsThread(s, s.caller) && (st == Inactive || st == Active)
    ensures RolesKept(s, Unblock(Answer(CreateThread(s, id, st), 1)))
  {
    var r := Unblock(Answer(CreateThread(s, id, st), 1));
    assert r.peers == s.peers + [0] && r.states == (s.states + [st])[s.caller := Runnable];
  }

  lemma {:induction false} RefusalKeepsRoles(s: State, e: Word)
    requires Serving(s) && IsThread(s, s.caller)
    ensures RolesKept(s, Refuse(s, e)) && RolesKept(s, Unblock(Refuse(s, e)))
  {
    assert Refuse(s, e).peers == s.peers && Refuse(s, e).states == s.states;
  }

  lemma {:induction false} ThreadControlKeepsRoles(s: State, env: Env)
    requires Serving(s) && ThreadControl(s, env).Controlled?
    ensures RolesKept(s, ThreadControl(s, env).s)
  {
    var r := ThreadControl(s, env).s;
    if |r.ids| > |s.ids| {
      CreationKeepsRoles(s, r.ids[|s.ids|], r.states[|s.ids|]);
    } else {
      forall e: Word
        ensures RolesKept(s, Refuse(s, e)) && RolesKept(s, Unblock(Refuse(s, e)))
      {
        RefusalKeepsRoles(s, e);
      }
    }
  }

  lemma {:induction false} SwitchKeepsRoles(s: State, s1: State, target: Option<nat>)
    requires RolesKept(s, s1) && Resched(s1, target, []).Next?
    ensures RolesKept(s, Resched(s1, target, []).s) && Resched(s1, target, []).ev == []
  {
    var s2 := Resched(s1, target, []).s;
    assert s2.ids == s1.ids && s2.states == s1.states && s2.peers == s1.peers;
    forall w: nat
      ensures RoleAt(s2, w) == RoleAt(s, w)
    {
      assert RoleAt(s1, w) == RoleAt(s, w);
    }
  }

  function Called(s: State, regs: Regs): State
    requires IsThread(s, s.current) && IsThread(s, KERNEL)
  {
    var s1 := SetState(s.(caller := s.current, regs := s.regs[s.current := regs]), s.current, SvcBlocked);
    SetState(s1.(pending := true), KERNEL, Runnable)
  }

  lemma {:induction false} CalledKeepsRoles(s: State, regs: Regs)
    requires Inv(s) && Enabled(s, SupervisorCall(regs))
    ensures RolesKept(s, Called(s, regs))
  {
    var s1 := Called(s, regs);
    assert s1.peers == s.peers && s1.states == s.states[s.current := SvcBlocked][KERNEL := Runnable];
  }

  lemma {:induction false} SwitchObserved(s: State, s1: State, target: Option<nat>)
    requires s1.ids == s.ids && RolesKept(s, s1) && Resched(s1, target, []).Next?
    ensures Observed(s, Resched(s1, target, []).ev, Resched(s1, target, []).s)
  {
    SwitchKeepsRoles(s, s1, target);
    KeptObserved(s, Resched(s1, target, []).s);
  }

  lemma {:induction false} CallObserved(s: State, regs: Regs)
    requires Inv(s) && Enabled(s, SupervisorCall(regs))
    requires s.pending ==> Chain(s, s.caller, {})
    ensures TakeStep(s, SupervisorCall(regs)).Next?
    ensures Observed(s, TakeStep(s, SupervisorCall(regs)).ev, TakeStep(s, SupervisorCall(regs)).s)
  {
    CallKeeps(s, regs);
    assert TakeStep(s, SupervisorCall(regs)) == Resched(Called(s, regs), Some(KERNEL), []);
    CalledKeepsRoles(s, regs);
    SwitchObserved(s, Called(s, regs), Some(KERNEL));
  }

  /** A thread that is in no phase changes its state, to one that is in none. */
  lemma {:induction false} MovingKeepsRoles(s: State, t: nat, st: ThreadState)
    requires IsThread(s, t) && RoleOf(s, t) == Idle && st != SendBlocked && st != RecvBlocked
    ensures RolesKept(s, SetState(s, t, st))
  {
    assert SetState(s, t, st).peers == s.peers;
  }

  /** Every step's events lead the monitor from the roles before to the roles after. */
  lemma {:induction false} StepObserved(s: State, step: Step)
    requires Inv(s) && Enabled(s, step)
    requires s.pending ==> Chain(s, s.caller, {})
    requires TakeStep(s, step).Next?
    ensures Observed(s, TakeStep(s, step).ev, TakeStep(s, step).s)
  {
    match step
    case UserRun(_, _, _) => KeptObserved(s, TakeStep(s, step).s);
    case SupervisorCall(regs) => CallObserved(s, regs);
    case ThreadSwitch(dest) =>
      var s1 := if s.current != KERNEL then SetState(s, s.current, Paused) else s;
      if s.current != KERNEL {
        MovingKeepsRoles(s, s.current, Paused);
      }
      SwitchObserved(s, s1, Lookup(s1.ids, dest));
    case KernelTurn(env) => KernelTurnObserved(s, env);
    case UnpauseAlarm(t) => UnpauseObserved(s, t);
    case TimeoutAlarm(t) =>
      TimeoutObserved(s, t);
      SameThreadsObserved(s, TakeStep(s, step).ev, TakeStep(s, step).s);
    case RescheduleAlarm => SwitchObserved(s, s, None);
  }

  /** A switch, whatever was recorded before it, keeps the roles. */
  lemma {:induction false} SwitchedObserved(s: State, target: Option<nat>, ev: seq<Event>)
    requires Resched(s, target, ev).Next?
    ensures Observed(s, [], Resched(s, target, ev).s) && Resched(s, target, ev).ev == ev
  {
    assert Resched(s, target, []).s == Resched(s, target, ev).s;
    SwitchObserved(s, s, target);
  }

  lemma {:induction false} WokenRoles(s: State, t: nat)
    requires IsThread(s, t)
    ensures var s1 := SetState(s, t, Runnable);
      s1.ids == s.ids && RoleOf(s1, t) == Idle &&
      forall w :: 0 <= w < |s.ids| && w != t ==> RoleOf(s1, w) == RoleOf(s, w)
  {
    assert SetState(s, t, Runnable).peers == s.peers;
  }

  /** An alarm takes a thread out of the phase it is in, if any. */
  lemma {:induction false} UnpauseObserved(s: State, t: nat)
    requires Inv(s) && Enabled(s, UnpauseAlarm(t)) && TakeStep(s, UnpauseAlarm(t)).Next?
    requires s.pending ==> Chain(s, s.caller, {})
    ensures Observed(s, TakeStep(s, UnpauseAlarm(t)).ev, TakeStep(s, UnpauseAlarm(t)).s)
  {
    var s1, ev, r := SetState(s, t, Runnable), Interrupts(s, t), TakeStep(s, UnpauseAlarm(t));
    WokenRoles(s, t);
    InterruptsObserved(s, t, s1);
    SwitchedObserved(s1, None, ev);
    ObservedCompose(s, ev, s1, [], r.s);
    assert ev + [] == ev;
  }

  lemma {:induction false} KernelTurnObserved(s: State, env: Env)
    requires Inv(s) && Enabled(s, KernelTurn(env))
    requires s.pending ==> Chain(s, s.caller, {})
    requires TakeStep(s, KernelTurn(env)).Next?
    ensures Observed(s, TakeStep(s, KernelTurn(env)).ev, TakeStep(s, KernelTurn(env)).s)
  {
    var r := TakeStep(s, KernelTurn(env));
    if !s.pending {
      KeptObserved(s, r.s);
    } else {
      var served := ServeCaller(s, env);
      ServeCallerServes(s, env);
      assert RolesKept(served.s, r.s);
      KeptObserved(served.s, r.s);
      if s.regs[s.caller].r7 == SYS_IPC {
        IpcCallObserved(s);
        SameThreadsObserved(s, served.ev, served.s);
      } else if s.regs[s.caller].r7 == SYS_SPACE_CONTROL {
        SpaceControlObserved(s, env);
      } else {
        OtherCallsKeepRoles(s, env);
        ServingGrows(s, env);
        KeptObserved(s, served.s);
      }
      ObservedCompose(s, served.ev, served.s, [], r.s);
      assert served.ev + [] == served.ev;
    }
  }

  // ---------- Runs ----------

  /** Over any run the monitor accepts every event, and ends in the roles that the final state shows. */
  lemma {:induction false} RunObserved(s: State, steps: seq<Step>)
    requires Inv(s) && Run(s, steps).Next?
    ensures Observed(s, Run(s, steps).ev, Run(s, steps).s)
    decreases |steps|
  {
    if steps == [] {
      KeptObserved(s, s);
    } else {
      StepKeeps(s, steps[0]);
      StepObserved(s, steps[0]);
      var first := TakeStep(s, steps[0]);
      RunObserved(first.s, steps[1..]);
      ObservedCompose(s, first.ev, first.s, Run(first.s, steps[1..]).ev, Run(s, steps).s);
    }
  }

  /** Exactly-once delivery over any run from a state in which no one is in a phase, as at boot: every phase that
      ends was begun once, and between its beginning and its end there was exactly one message if it ended well and
      none if it did not, or was cut short; and every message went from an open send phase to an open receive phase
      that had none yet and named each other, or, from a pager, to a thread in no phase. */
  lemma {:induction false} ExactlyOnce(s: State, steps: seq<Step>, i: nat)
    requires Inv(s) && Run(s, steps).Next? && forall w :: 0 <= w < |s.ids| ==> RoleOf(s, w) == Idle
    requires i < |Run(s, steps).ev|
    ensures Justified(Run(s, steps).s.ids, Run(s, steps).ev, i)
  {
    var r := Run(s, steps);
    RunObserved(s, steps);
    AcceptedIsJustified(r.s.ids, Padded(s, |r.s.ids|), r.ev, i);
  }

  lemma {:induction false} BootIsIdle(rootUtcb: Word, utcbs: seq<Utcb>, mem: seq<Byte>)
    requires |utcbs| == 3
    ensures forall w :: 0 <= w < |Boot(rootUtcb, utcbs, mem).ids| ==> RoleOf(Boot(rootUtcb, utcbs, mem), w) == Idle
  {
  }

  /** The totals of any run: the send phases of a thread that ended without error are as many as the messages copied
      from it, its receive phases that ended without error as many as the messages copied to it, and every phase
      begun is over unless the thread is blocked in it. */
  lemma {:induction false} RunBalances(s: State, steps: seq<Step>, w: nat)
    requires Inv(s) && Run(s, steps).Next? && w < |Run(s, steps).s.ids|
    ensures var ev := Run(s, steps).ev;
      Count(ev, MessageFrom, w) == Count(ev, SendOk, w) && Count(ev, MessageTo, w) == Count(ev, RecvOk, w)
    ensures var ev, s' := Run(s, steps).ev, Run(s, steps).s;
      One(RoleAt(s, w).Sending?) + Count(ev, SendBegun, w) == Count(ev, SendOver, w) + One(RoleAt(s', w).Sending?) &&
      One(RoleAt(s, w).Receiving?) + Count(ev, RecvBegun, w) == Count(ev, RecvOver, w) + One(RoleAt(s', w).Receiving?)
  {
    var r := Run(s, steps);
    RunObserved(s, steps);
    AcceptedBalances(r.s.ids, Padded(s, |r.s.ids|), r.ev, w);
  }
}
