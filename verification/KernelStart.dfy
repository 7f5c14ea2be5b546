/** A thread's way to its first instruction, as a run: its creator makes it, with itself as pager, and sends it the two
    words at which it is to start. */
module KernelStart {
  import opened Words
  import opened KernelState
  import opened Ipc
  import opened IpcRendezvous
  import opened KernelAnswers
  import opened KernelCalls
  import opened KernelSystem
  import opened KernelRuns
  import opened KernelTheorems
  import opened L4Time
  import opened MessageCopy

  ghost predicate OneStep(s: State, step: Step, s1: State, ev: seq<Event>) {
    Inv(s) && Enabled(s, step) && (s.pending ==> Chain(s, s.caller, {})) && TakeStep(s, step) == Next(s1, ev) && Inv(s1)
  }

  ghost predicate Leads(s: State, steps: seq<Step>, z: State, ev: seq<Event>) {
    Inv(s) && Run(s, steps) == Next(z, ev)
  }

  lemma {:induction false} RunHead(s: State, steps: seq<Step>, z: State, ev: seq<Event>)
      returns (s1: State, e1: seq<Event>, e2: seq<Event>)
    requires steps != [] && Leads(s, steps, z, ev)
    ensures OneStep(s, steps[0], s1, e1) && Leads(s1, steps[1..], z, e2) && ev == e1 + e2
  {
    StepKeeps(s, steps[0]);
    s1, e1 := TakeStep(s, steps[0]).s, TakeStep(s, steps[0]).ev;
    e2 := Run(s1, steps[1..]).ev;
  }

  lemma {:induction false} RunCons(s: State, step: Step, s1: State, e1: seq<Event>, rest: seq<Step>, z: State,
      e2: seq<Event>)
    requires OneStep(s, step, s1, e1) && Leads(s1, rest, z, e2)
    ensures Leads(s, [step] + rest, z, e1 + e2)
  {
    assert ([step] + rest)[1..] == rest;
    StepKeeps(s, step);
  }

  lemma {:induction false} Associate<T>(a: seq<T>, b: seq<T>, c: seq<T>)
    ensures a + (b + c) == a + b + c
  {
  }

  lemma {:induction false} NothingBefore<T>(a: seq<T>)
    ensures [] + a == a
  {
  }

  lemma {:induction false} FirstAndRest<T>(a: seq<T>)
    requires a != []
    ensures [a[0]] + a[1..] == a
  {
  }

  /** The steps of two runs, one after the other: from s to m, and on to z. */
  lemma {:induction false} RunBoth(s: State, a: seq<Step>, m: State, e1: seq<Event>, b: seq<Step>, z: State,
      e2: seq<Event>)
    requires Leads(s, a, m, e1) && Leads(m, b, z, e2)
    ensures Leads(s, a + b, z, e1 + e2)
    decreases |a|
  {
    if a == [] {
      NothingBefore(b);
      NothingBefore(e2);
    } else {
      var s1, first, middle := RunHead(s, a, m, e1);
      RunBoth(s1, a[1..], m, middle, b, z, e2);
      RunCons(s, a[0], s1, first, a[1..] + b, z, middle + e2);
      FirstAndRest(a);
      Associate([a[0]], a[1..], b);
      Associate(first, middle, e2);
    }
  }

  lemma {:induction false} RunJoin(s: State, a: seq<Step>, b: seq<Step>)
    requires Inv(s) && Run(s, a).Next? && Run(Run(s, a).s, b).Next?
    ensures Run(s, a + b) == Next(Run(Run(s, a).s, b).s, Run(s, a).ev + Run(Run(s, a).s, b).ev)
  {
    var first := Run(s, a);
    var second := Run(first.s, b);
    RunBoth(s, a, first.s, first.ev, b, second.s, second.ev);
  }

  lemma {:induction false} OwnName(s: State, t: nat)
    requires IpcInv(s) && IsThread(s, t)
    ensures Lookup(s.ids, s.ids[t].globalId) == Some(t)
  {
    SameNumberSameThread(s.ids, Lookup(s.ids, s.ids[t].globalId).value, t);
  }

  // ---------- Creating it ----------

  /** The registers by which a thread with the id own creates another one, of which it is scheduler and pager. */
  function CreateRegs(id: Word, own: Word, utcb: Word): Regs {
    Regs(id, own, own, own, utcb, SYS_THREAD_CONTROL)
  }

  /** A thread whose creation the machine follows. */
  predicate CanCreate(s: State, t: nat, id: Word, utcb: Word, env: Env)
    requires IsThread(s, t)
  {
    ThreadNo(s.ids[t].globalId) > 0 && Fits(s.ids, id, utcb) && !Reserved(id) && Lookup(s.ids, id).None? &&
      s.ids[t].space != 0 && env.utcbInArea
  }

  lemma {:induction false} CreateServed(s: State, id: Word, utcb: Word, env: Env)
    requires Serving(s) && Chain(s, s.caller, {}) && CanCreate(s, s.caller, id, utcb, env)
    requires s.regs[s.caller] == CreateRegs(id, s.ids[s.caller].globalId, utcb)
    ensures var r, n, t := ServeCaller(s, env), |s.ids|, s.caller;
      && r.Done? && r.ev == [] && |r.s.ids| == n + 1 && r.s.ids[..n] == s.ids && r.s.ids[n].globalId == id
      && r.s.ids[n].pager == s.ids[t].globalId && r.s.states == s.states[t := Runnable] + [Active]
      && |r.s.mem| == |s.mem| && r.s.current == s.current
  {
    OwnName(s, s.caller);
    assert CreationError(s, env).None?;
    assert ThreadControl(s, env) == Creation(s);
    NewThreadIs(s, env);
    var r := Creation(s).s;
    assert r.states == r.states[..|s.ids|] + [r.states[|s.ids|]];
  }

  /** The current thread creates a thread, which waits for its creator as pager; and the processor goes back to it. */
  lemma {:induction false} CreatorCreates(s: State, id: Word, utcb: Word, env: Env)
    requires Inv(s) && !s.pending && UserRuns(s) && CanCreate(s, s.current, id, utcb, env)
    ensures var own := s.ids[s.current].globalId;
      var r := Run(s, CallSteps(CreateRegs(id, own, utcb), env) + [ThreadSwitch(own)]);
      var n := |s.ids|;
      && r.Next? && r.ev == [] && |r.s.ids| == n + 1 && r.s.ids[..n] == s.ids && r.s.ids[n].globalId == id
      && r.s.ids[n].pager == own && r.s.states[n] == Active && r.s.current == s.current && !r.s.pending
      && r.s.states[s.current] == Runnable && |r.s.mem| == |s.mem|
  {
    var t, own := s.current, s.ids[s.current].globalId;
    var regs := CreateRegs(id, own, utcb);
    CallMade(s, regs);
    var s1 := TakeStep(s, SupervisorCall(regs)).s;
    CallerCanIpc(s1);
    CreateServed(s1, id, utcb, env);
    CallRuns(s, regs, env);
    var s2 := Run(s, CallSteps(regs, env)).s;
    BackTo(s2, t);
    RunJoin(s, CallSteps(regs, env), [ThreadSwitch(own)]);
  }

  /** The kernel thread, its work done, hands the processor to a runnable thread. */
  lemma {:induction false} BackTo(s: State, t: nat)
    requires Inv(s) && s.current == KERNEL && !s.pending && t >= ROOT && IsThread(s, t) && s.states[t] == Runnable
    ensures var r := Run(s, [ThreadSwitch(s.ids[t].globalId)]);
      r.Next? && r.ev == [] && r.s == s.(heap := r.s.heap, current := t)
  {
    OwnName(s, t);
    var step := ThreadSwitch(s.ids[t].globalId);
    ReschedKeeps(s, Some(t), []);
    StepKeeps(s, step);
    var s1 := TakeStep(s, step).s;
    assert Run(s1, []) == Next(s1, []);
    assert [step][1..] == [];
  }

  // ---------- Starting it ----------

  const START: Tag := Tag(2, 0, 0, 0)

  /** The stack pointer of a thread that is started with the stack given: eight words below it. */
  function BelowFrame(stack: Word): Word {
    (stack + WORD_LIMIT - 32) % WORD_LIMIT
  }

  /** The thread n waits for a start message from the address space of t. */
  predicate AwaitsStart(s: State, t: nat, n: nat)
    requires IsThread(s, t)
  {
    IsThread(s, n) && s.states[n] == Active &&
    Lookup(s.ids, s.ids[n].pager).Some? && s.ids[Lookup(s.ids, s.ids[n].pager).value].space == s.ids[t].space
  }

  lemma {:induction false} StartSends(s: State, t: nat, n: nat, timeout: Time)
    requires IpcInv(s) && IsThread(s, t) && AwaitsStart(s, t, n) && s.utcbs[t].tag == START && IsTime(timeout)
    ensures IpcSend(s, t, s.ids[n].globalId, timeout) ==
      Phase(PhaseDone, PagerStart(s, t, n),
            [SendBegin(t, s.ids[n].globalId), PagerStarted(t, n), SendEnd(t, true)])
  {
    OwnName(s, n);
    assert FindPartner(s, t, s.ids[n].globalId, true) == PagerMsg(n);
  }

  lemma {:induction false} StartServed(s: State, t: nat, n: nat)
    requires IpcInv(s) && Chain(s, t, {}) && AwaitsStart(s, t, n) && n != t && s.utcbs[t].tag == START
    requires s.regs[t] == IpcRegs(s.ids[n].globalId, NILTHREAD, 0)
    ensures DoIpc(s, t, false, {}) ==
      Done(SetState(PagerStart(s, t, n), t, Runnable),
           [SendBegin(t, s.ids[n].globalId), PagerStarted(t, n), SendEnd(t, true)])
  {
    StartSends(s, t, n, SendTimeout(0));
    var ev := [SendBegin(t, s.ids[n].globalId), PagerStarted(t, n), SendEnd(t, true)];
    var s1 := PagerStart(s, t, n);
    assert SendFirst(s, t, false) == Phase(PhaseDone, s1, ev);
    ChainKept(s, s1, t, {});
    assert IpcRecv(s1, t, NILTHREAD, RecvTimeout(0), {}) == Phase(PhaseDone, s1, []);
    assert ev + [] + [] == ev;
  }

  /** What the thread n finds. */
  lemma {:induction false} StartedIs(s: State, t: nat, n: nat)
    requires IsThread(s, t) && IsThread(s, n) && n != t
    ensures var r, words := SetState(PagerStart(s, t, n), t, Runnable), s.utcbs[t].words;
      && r.states[n] == Runnable && r.states[t] == Runnable && |r.ids| == |s.ids|
      && r.entries[n].pc == words[1] && r.entries[n].sp == BelowFrame(words[2])
      && r.entries[n].psr == 0x100_0000 && r.entries[n].ret == 0xFFFF_FFFD
  {
    var stack := s.utcbs[t].words[2];
    if stack >= 32 {
      assert stack + WORD_LIMIT - 32 == stack - 32 + WORD_LIMIT;
    }
  }

  /** The current thread sends the start message to a thread that waits for it. */
  lemma {:induction false} PagerStarts(s: State, n: nat, env: Env)
    requires Inv(s) && !s.pending && UserRuns(s) && AwaitsStart(s, s.current, n) && s.utcbs[s.current].tag == START
    ensures var r := Run(s, CallSteps(IpcRegs(s.ids[n].globalId, NILTHREAD, 0), env));
      var words := s.utcbs[s.current].words;
      && r.Next? && r.ev == [SendBegin(s.current, s.ids[n].globalId), PagerStarted(s.current, n),
        SendEnd(s.current, true)]
      && |r.s.ids| == |s.ids| && r.s.states[n] == Runnable && r.s.states[s.current] == Runnable
      && r.s.entries[n].pc == words[1] && r.s.entries[n].sp == BelowFrame(words[2])
  {
    var t, regs := s.current, IpcRegs(s.ids[n].globalId, NILTHREAD, 0);
    CallMade(s, regs);
    var s1 := TakeStep(s, SupervisorCall(regs)).s;
    CallerCanIpc(s1);
    assert AwaitsStart(s1, t, n);
    StartServed(s1, t, n);
    StartedIs(s1, t, n);
    IpcServed(s1, env);
    CallRuns(s, regs, env);
  }

  // ---------- Both ----------

  /** A thread created by its pager and then sent two untyped words is runnable, its entry the first word and its stack
      the frame's size below the second. */
  lemma {:induction false} CreatedAndStarted(s: State, id: Word, utcb: Word, env: Env, words: Registers, mem: seq<Byte>)
    requires Inv(s) && !s.pending && UserRuns(s) && CanCreate(s, s.current, id, utcb, env) && |mem| == |s.mem|
    ensures var own := s.ids[s.current].globalId;
      var steps := CallSteps(CreateRegs(id, own, utcb), env) + [ThreadSwitch(own)] + [UserRun(START, words, mem)] +
        CallSteps(IpcRegs(id, NILTHREAD, 0), env);
      var r, n := Run(s, steps), |s.ids|;
      && r.Next? && |r.s.ids| == n + 1 && r.s.ids[n].globalId == id && r.s.states[n] == Runnable
      && r.s.entries[n].pc == words[1] && r.s.entries[n].sp == BelowFrame(words[2])
  {
    var t, own, n := s.current, s.ids[s.current].globalId, |s.ids|;
    var create := CallSteps(CreateRegs(id, own, utcb), env) + [ThreadSwitch(own)];
    CreatorCreates(s, id, utcb, env);
    var s1 := Run(s, create).s;
    var write := UserRun(START, words, mem);
    Written(s1, words, mem);
    var s2 := Run(s1, [write]).s;
    RunJoin(s, create, [write]);
    OwnName(s2, t);
    assert s2.ids[t] == s.ids[t] by {
      assert s2.ids[..n][t] == s.ids[t];
    }
    PagerStarts(s2, n, env);
    RunJoin(s, create + [write], CallSteps(IpcRegs(id, NILTHREAD, 0), env));
    NamesStay(s2, CallSteps(IpcRegs(id, NILTHREAD, 0), env), n);
  }

  lemma {:induction false} Written(s: State, words: Registers, mem: seq<Byte>)
    requires Inv(s) && UserRuns(s) && !s.pending && |mem| == |s.mem|
    ensures var r := Run(s, [UserRun(START, words, mem)]);
      && r.Next? && r.ev == [] && r.s == s.(utcbs := r.s.utcbs, mem := mem)
      && r.s.utcbs[s.current].tag == START && r.s.utcbs[s.current].words == words
  {
    var step := UserRun(START, words, mem);
    assert IsTag(START);
    StepKeeps(s, step);
    var s1 := TakeStep(s, step).s;
    assert Run(s1, []) == Next(s1, []);
    assert [step][1..] == [];
  }

  lemma {:induction false} NamesStay(s: State, steps: seq<Step>, n: nat)
    requires Inv(s) && Run(s, steps).Next? && IsThread(s, n)
    ensures IsThread(Run(s, steps).s, n) && Run(s, steps).s.ids[n].globalId == s.ids[n].globalId
    decreases |steps|
  {
    if steps != [] {
      var s1, _, _ := RunHead(s, steps, Run(s, steps).s, Run(s, steps).ev);
      StepGrows(s, steps[0]);
      NamesStay(s1, steps[1..], n);
    }
  }
}
