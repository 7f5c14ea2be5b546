/** A system call as a run: the supervisor call and the turn of the kernel thread that serves it. */
module KernelCalls {
  import opened Words
  import opened KernelState
  import opened Ipc
  import opened KernelSystem
  import opened KernelRuns
  import opened KernelTheorems

  /** The registers of an IPC call. */
  function IpcRegs(to: Word, from: Word, timeouts: Word): Regs {
    Regs(to, from, timeouts, 0, 0, SYS_IPC)
  }

  /** The send timeout is the upper half of the word and the receive timeout the lower one; either is none if its ten
      lowest bits are zero. */
  predicate NoSendTimeout(timeouts: Word) {
    timeouts / 65536 % 1024 == 0
  }

  predicate NoRecvTimeout(timeouts: Word) {
    timeouts % 1024 == 0
  }

  lemma {:induction false} HalvesAre(timeouts: Word)
    ensures NoSendTimeout(timeouts) ==> SendTimeout(timeouts).m == 0
    ensures NoRecvTimeout(timeouts) ==> RecvTimeout(timeouts).m == 0
  {
  }

  /** The steps of a call of the current thread. */
  function CallSteps(regs: Regs, env: Env): seq<Step> {
    [SupervisorCall(regs), KernelTurn(env)]
  }

  /** What the kernel thread finds when it serves a call. */
  lemma {:induction false} CallMade(s: State, regs: Regs)
    requires Inv(s) && !s.pending && Enabled(s, SupervisorCall(regs))
    ensures var r := TakeStep(s, SupervisorCall(regs));
      r.Next? && r.ev == [] && Serving(r.s) && r.s.caller == s.current && r.s.regs[s.current] == regs &&
      r.s.ids == s.ids && r.s.peers == s.peers && r.s.utcbs == s.utcbs && r.s.entries == s.entries &&
      r.s.spaces == s.spaces && r.s.states == s.states[s.current := SvcBlocked][KERNEL := Runnable]
  {
    CallKeeps(s, regs);
    var s1 := SetState(s.(caller := s.current, regs := s.regs[s.current := regs]), s.current, SvcBlocked);
    var s2 := SetState(s1.(pending := true), KERNEL, Runnable);
    var r := TakeStep(s, SupervisorCall(regs));
    assert r == Resched(s2, Some(KERNEL), []);
    assert r.s == s2.(heap := r.s.heap, current := r.s.current);
  }

  /** The call and the turn of the kernel thread that serves it, as a run. */
  lemma {:induction false} CallRuns(s: State, regs: Regs, env: Env)
    requires Inv(s) && !s.pending && Enabled(s, SupervisorCall(regs))
    requires TakeStep(s, SupervisorCall(regs)).Next?
    requires var s1 := TakeStep(s, SupervisorCall(regs)).s;
      Inv(s1) && s1.current == KERNEL && s1.pending && Chain(s1, s1.caller, {}) && ServeCaller(s1, env).Done?
    ensures var s1 := TakeStep(s, SupervisorCall(regs)).s;
      var served, r := ServeCaller(s1, env), Run(s, CallSteps(regs, env));
      |served.s.ids| >= |s1.ids| && r.Next? && r.ev == TakeStep(s, SupervisorCall(regs)).ev + served.ev &&
      r.s == SetState(served.s.(pending := false), KERNEL, Inactive)
  {
    var s1 := TakeStep(s, SupervisorCall(regs)).s;
    var steps := CallSteps(regs, env);
    assert steps[1..] == [KernelTurn(env)] && steps[1..][1..] == [];
    ServeCallerServes(s1, env);
    var last := TakeStep(s1, KernelTurn(env));
    assert last.Next?;
    StepKeeps(s1, KernelTurn(env));
    assert Run(last.s, []) == Next(last.s, []);
    assert last.ev + [] == last.ev;
    assert Run(s1, [KernelTurn(env)]).Next? && Run(s1, [KernelTurn(env)]).s == last.s;
  }

  /** An IPC call is served by do_ipc. */
  lemma {:induction false} IpcServed(s: State, env: Env)
    requires IsThread(s, s.caller) && Chain(s, s.caller, {}) && s.regs[s.caller].r7 == SYS_IPC
    ensures ServeCaller(s, env) == DoIpc(s, s.caller, false, {})
  {
  }
}
