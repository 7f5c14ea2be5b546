/** The kernel as a machine: supervisor calls, the kernel thread's handling of them, and the alarms of
    the system tick. An exception together with the context switch that follows it is one step, and so
    is one turn of the kernel thread's loop; steps come in any order that their guards allow. */
module KernelSystem {
  import opened Words
  import opened ReadyHeap
  import opened KernelState
  import opened Ipc
  import opened MessageCopy

  const SYS_KERNEL_INTERFACE: nat := 0
  const SYS_SPACE_CONTROL: nat := 1
  const SYS_THREAD_CONTROL: nat := 2
  const SYS_IPC: nat := 5
  const SYS_UNMAP: nat := 7
  const SYS_SYSTEM_CLOCK: nat := 9
  const SYS_THREAD_SWITCH: nat := 10
  const SYS_SCHEDULE: nat := 11

  const MAX_ADDRESS_SPACES: nat := 16
  const ALL_ONES: Word := 0xFFFF_FFFF

  // ---------- The scheduler ----------

  datatype Switch = Switched(s: State) | NoTaskPanic | NotActivePanic

  /** The current thread goes back into the heap while it is runnable. */
  function Requeue(s: State): State {
    if s.current < |s.ids| && s.states[s.current] == Runnable
    then s.(heap := Insert(Priorities(s.ids), s.heap, s.current))
    else s
  }

  /** schedule_next_thread: the requested thread if it waits for the processor, else the heap's first. */
  function ScheduleNext(s: State, target: Option<nat>): Switch {
    var s1 := Requeue(s);
    if target.Some? && target.value in s1.heap then
      if target.value < |s1.ids| && s1.states[target.value] == Runnable then
        var heap := Delete(Priorities(s1.ids), s1.heap, IndexOf(s1.heap, target.value));
        Switched(s1.(heap := heap, current := target.value))
      else NotActivePanic
    else if s1.heap == [] then NoTaskPanic
    else Switched(s1.(heap := Delete(Priorities(s1.ids), s1.heap, 0), current := s1.heap[0]))
  }

  // ---------- System calls ----------

  /** What the handlers read from parts of the kernel outside the model: the four words of the kernel
      interface page, and the verdicts of the address-space checks. */
  datatype Env = Env(kip0: Word, kip1: Word, kip2: Word, kip3: Word, kipAreaOk: bool, utcbInArea: bool,
      utcbPageSet: bool)

  function Unblock(s: State): State
    requires IsThread(s, s.caller)
  {
    SetState(s, s.caller, Runnable)
  }

  function Answer(s: State, r0: Word): State
    requires IsThread(s, s.caller)
  {
    SetR0(s, s.caller, r0)
  }

  /** r0 := 0 and an error number in the caller's UTCB. */
  function Refuse(s: State, error: nat): State
    requires IsThread(s, s.caller)
  {
    Answer(SetError(s, s.caller, CallFailure(error)), 0)
  }

  function KernelInterface(s: State, env: Env): State
    requires IsThread(s, s.caller)
  {
    var regs := s.regs[s.caller].(r0 := env.kip0, r1 := env.kip1, r2 := env.kip2, r3 := env.kip3);
    s.(regs := s.regs[s.caller := regs])
  }

  /** set_thread_priority. */
  function SetPriority(s: State, t: nat, prio: nat): State
    requires IsThread(s, t)
  {
    var ids := s.ids[t := s.ids[t].(priority := prio)];
    if t in s.heap then
      var (h, i) := Sink(Priorities(ids), s.heap, IndexOf(s.heap, t));
      s.(ids := ids, heap := Swim(Priorities(ids), h, i).0)
    else s.(ids := ids)
  }

  function ThreadStateNo(st: ThreadState): Word {
    match st
    case Inactive => 2
    case Runnable => 3
    case Active => 7
    case SvcBlocked => 7
    case RecvBlocked => 6
    case SendBlocked => 4
    case Paused => 1
  }

  /** The checks of syscall_schedule: the error number, or 0. */
  function ScheduleVerdict(s: State, dest: nat): nat
    requires IsThread(s, s.caller) && IsThread(s, dest)
  {
    var regs := s.regs[s.caller];
    var scheduler := Lookup(s.ids, s.ids[dest].scheduler);
    if scheduler.None? || s.ids[s.caller].space != s.ids[scheduler.value].space then 1
    else if regs.r2 != ALL_ONES && regs.r2 != 0 then 5
    else if regs.r3 != ALL_ONES && s.ids[s.caller].priority > regs.r3 then 5
    else 0
  }

  function ScheduleApply(s: State, dest: nat): State
    requires IsThread(s, s.caller) && IsThread(s, dest)
  {
    var regs := s.regs[s.caller];
    var s1 := if regs.r3 != ALL_ONES then SetPriority(s, dest, regs.r3) else s;
    s1.(regs := s1.regs[s1.caller := regs.(r0 := ThreadStateNo(s1.states[dest]), r1 := 0)])
  }

  /** syscall_schedule; None is the panic on a preemption control request. */
  function Schedule(s: State): Option<State>
    requires IsThread(s, s.caller)
  {
    match Lookup(s.ids, s.regs[s.caller].r0)
    case None => Some(Refuse(s, 2))
    case Some(dest) =>
      var error := ScheduleVerdict(s, dest);
      if error != 0 then Some(Refuse(s, error))
      else if s.regs[s.caller].r4 != ALL_ONES then None
      else Some(ScheduleApply(s, dest))
  }

  /** A thread without a space gets a new one; a UTCB area that is set already is an error that is noted. */
  function EnterSpace(s: State, t: nat, utcbPageSet: bool): State
    requires IsThread(s, s.caller) && IsThread(s, t)
  {
    var s1 := if s.ids[t].space == 0
      then s.(ids := s.ids[t := s.ids[t].(space := s.spaces + 1)], spaces := s.spaces + 1)
      else s;
    if utcbPageSet then Refuse(s1, 6) else s1
  }

  /** write_utcb and the new state: whatever the thread was doing, it is to wait for its pager. */
  function Activate(s: State, t: nat): State
    requires IsThread(s, t)
  {
    SetState(SetError(s, t, CallFailure(0)), t, Active)
  }

  /** The end of SpaceControl: the thread waits for its pager if it can start, and the caller is answered. A phase
      that the thread was in is cut short. The kernel and the idle thread have no UTCB to write. */
  function ActivateIn(s: State, t: nat, starts: bool): Outcome
    requires IsThread(s, s.caller) && IsThread(s, t)
  {
    if starts && (t == KERNEL || t == IDLE) then Halt
    else
      var s1 := if starts then Activate(s, t) else s;
      var regs := s1.regs[s1.caller].(r0 := 1, r1 := 0);
      Done(s1.(regs := s1.regs[s1.caller := regs]), if starts then Interrupts(s, t) else [])
  }

  /** syscall_space_control past its checks. */
  function ControlSpaceOf(s: State, t: nat, env: Env): Outcome
    requires IsThread(s, s.caller) && IsThread(s, t)
  {
    if s.ids[t].space == 0 && s.spaces >= MAX_ADDRESS_SPACES then Halt
    else ActivateIn(EnterSpace(s, t, env.utcbPageSet), t, env.utcbInArea && s.ids[t].pager != NILTHREAD)
  }

  /** syscall_space_control. A seventeenth address space is outside the model, and so is the start of the kernel
      or the idle thread. */
  function SpaceControl(s: State, env: Env): Outcome
    requires IsThread(s, s.caller)
  {
    match Lookup(s.ids, s.regs[s.caller].r0)
    case None => Done(Refuse(s, 3), [])
    case Some(t) =>
      if !env.kipAreaOk then Done(Refuse(s, 7), []) else ControlSpaceOf(s, t, env)
  }

  /** create_thread and the assignments that follow it. */
  function CreateThread(s: State, id: Ident, state: ThreadState): State
  {
    var blank := Utcb(Tag(0, 0, 0, 0), seq(24, _ => 0), CallFailure(0), 0);
    s.(ids := s.ids + [id], states := s.states + [state], peers := s.peers + [0], utcbs := s.utcbs + [blank],
       regs := s.regs + [Regs(0, 0, 0, 0, 0, 0)], entries := s.entries + [Entry(0, 0, 0, 0)])
  }

  const DEFAULT_PRIORITY: nat := 42

  datatype ControlResult = Controlled(s: State) | Outside

  /** A new thread number that thread_list takes at its end: it is above all present ones, and with it there are
      fewer than 16, so that the search of the list stays inside. */
  predicate FitsList(ids: seq<Ident>, number: Word) {
    |ids| + 1 < THREAD_MAX_COUNT && forall i :: 0 <= i < |ids| ==> ThreadNo(ids[i].globalId) < ThreadNo(number)
  }

  /** Neither the new thread's local id nor an older one can be taken for the name of a thread. */
  predicate FitsNames(ids: seq<Ident>, number: Word, localId: Word) {
    && (IsLocalId(localId) || (Lookup(ids, localId).None? && !SameThreads(number, localId)))
    && forall i :: 0 <= i < |ids| ==> IsLocalId(ids[i].localId) || !SameThreads(number, ids[i].localId)
  }

  const UTCB_SIZE: nat := 160

  predicate UtcbsMeet(a: Word, b: Word) {
    a < b + UTCB_SIZE && b < a + UTCB_SIZE
  }

  /** The new thread's UTCB meets no other one; the kernel and the idle thread have none. */
  predicate FitsUtcbs(ids: seq<Ident>, utcb: Word) {
    forall i :: ROOT <= i < |ids| ==> !UtcbsMeet(utcb, ids[i].localId)
  }

  /** Whether the model goes on with a thread of this number and UTCB. */
  predicate Fits(ids: seq<Ident>, number: Word, utcb: Word) {
    FitsList(ids, number) && IsGlobalName(number) && FitsNames(ids, number, utcb) && FitsUtcbs(ids, utcb)
  }

  /** syscall_thread_control_create past its checks. */
  function Creation(s: State): ControlResult
    requires IsThread(s, s.caller)
  {
    var regs := s.regs[s.caller];
    var dest, pager, space := regs.r0, regs.r3, Lookup(s.ids, regs.r1);
    if !Fits(s.ids, dest, regs.r4) then Outside
    else
      var inSpace := if space.Some? then s.ids[space.value].space else 0;
      var id := Ident(dest, regs.r4, inSpace, DEFAULT_PRIORITY, pager, regs.r2);
      var state := if pager == NILTHREAD || space.None? then Inactive else Active;
      Controlled(Unblock(Answer(CreateThread(s, id, state), 1)))
  }

  /** The checks before a thread is created: the error number, if any. */
  function CreationError(s: State, env: Env): Option<nat>
    requires IsThread(s, s.caller)
  {
    var regs := s.regs[s.caller];
    var dest, spaceSpec, scheduler := regs.r0, regs.r1, regs.r2;
    var space := Lookup(s.ids, spaceSpec);
    if SameThreads(spaceSpec, NILTHREAD) then Some(3)
    else if space.None? && !SameThreads(dest, spaceSpec) then Some(3)
    else if space.Some? && s.ids[space.value].space == 0 then Some(3)
    else if scheduler != NILTHREAD && Lookup(s.ids, scheduler).None? then Some(4)
    else if space.Some? && !env.utcbInArea then Some(7)
    else None
  }

  /** syscall_thread_control for a thread that does not exist yet. */
  function CreationChecked(s: State, env: Env): ControlResult
    requires IsThread(s, s.caller)
  {
    match CreationError(s, env)
    case Some(error) => Controlled(Unblock(Refuse(s, error)))
    case None => Creation(s)
  }

  /** syscall_thread_control as far as it creates threads. Changing and deleting threads is outside the
      model, and so are ids that are no global name, and UTCBs whose address could be taken for the name of a thread
      or that meet another UTCB. */
  function ThreadControl(s: State, env: Env): ControlResult
    requires IsThread(s, s.caller)
  {
    var regs := s.regs[s.caller];
    var dest := regs.r0;
    if dest != NILTHREAD && ThreadNo(dest) < USER_THREAD_START then
      Controlled(Refuse(s, 1))
    else if Lookup(s.ids, dest).Some? then Outside
    else CreationChecked(s, env)
  }

  /** softirq_svc: what the kernel thread does for the caller. */
  function ServeCaller(s: State, env: Env): Outcome
    requires IsThread(s, s.caller) && Chain(s, s.caller, {})
  {
    var no := s.regs[s.caller].r7;
    if no == SYS_KERNEL_INTERFACE then Done(Unblock(KernelInterface(s, env)), [])
    else if no == SYS_SPACE_CONTROL then (
      match SpaceControl(s, env) case Halt => Halt case Done(s1, ev) => Done(Unblock(s1), ev))
    else if no == SYS_THREAD_CONTROL then (
      match ThreadControl(s, env) case Outside => Halt case Controlled(s1) => Done(s1, []))
    else if no == SYS_IPC then DoIpc(s, s.caller, false, {})
    else if no == SYS_UNMAP then Done(Unblock(s), [])
    else if no == SYS_SCHEDULE then (
      match Schedule(s) case None => Halt case Some(s1) => Done(Unblock(s1), []))
    else if no > SYS_SCHEDULE then Done(s, [])
    else Halt
  }

  // ---------- Steps ----------

  datatype Step =
    | UserRun(tag: Tag, words: Registers, mem: seq<Byte>)
    | SupervisorCall(regs: Regs)
    | ThreadSwitch(dest: Word)
    | KernelTurn(env: Env)
    | UnpauseAlarm(t: nat)
    | TimeoutAlarm(t: nat)
    | RescheduleAlarm

  datatype Result = Next(s: State, ev: seq<Event>) | OutOfModel | SchedulerPanic

  function Resched(s: State, target: Option<nat>, ev: seq<Event>): Result {
    match ScheduleNext(s, target)
    case Switched(s') => Next(s', ev)
    case _ => SchedulerPanic
  }

  /** A user thread has the processor. */
  predicate UserRuns(s: State) {
    ROOT <= s.current < |s.ids| && s.states[s.current] == Runnable
  }

  predicate Enabled(s: State, step: Step) {
    match step
    case UserRun(tag, _, mem) => UserRuns(s) && IsTag(tag) && |mem| == |s.mem|
    case SupervisorCall(regs) => UserRuns(s) && regs.r7 != SYS_SYSTEM_CLOCK && regs.r7 != SYS_THREAD_SWITCH
    case ThreadSwitch(_) => UserRuns(s) || (s.current == KERNEL && |s.ids| > KERNEL)
    case KernelTurn(_) => s.current == KERNEL && |s.ids| > KERNEL
    case UnpauseAlarm(t) => IsThread(s, t) && t >= ROOT && s.states[t] != Inactive
    case TimeoutAlarm(t) => IsThread(s, t)
    case RescheduleAlarm => true
  }

  /** softirq_execute once the pending call, if any, is served. */
  function AfterTurn(served: Outcome): Result {
    match served
    case Halt => OutOfModel
    case Done(s, ev) =>
      if IsThread(s, KERNEL) then Next(SetState(s.(pending := false), KERNEL, Inactive), ev) else OutOfModel
  }

  function TakeStep(s: State, step: Step): Result
    requires Enabled(s, step)
    requires s.pending && IsThread(s, KERNEL) ==> IsThread(s, s.caller) && Chain(s, s.caller, {})
  {
    match step
    case UserRun(tag, words, mem) =>
      Next(SetUtcb(s, s.current, s.utcbs[s.current].(tag := tag, words := words)).(mem := mem), [])
    case SupervisorCall(regs) =>
      var s1 := SetState(s.(caller := s.current, regs := s.regs[s.current := regs]), s.current, SvcBlocked);
      var s2 := SetState(s1.(pending := true), KERNEL, Runnable);
      Resched(s2, Some(KERNEL), [])
    case ThreadSwitch(dest) =>
      var s1 := if s.current != KERNEL then SetState(s, s.current, Paused) else s;
      Resched(s1, Lookup(s1.ids, dest), [])
    case KernelTurn(env) => AfterTurn(if s.pending then ServeCaller(s, env) else Done(s, []))
    case UnpauseAlarm(t) => Resched(SetState(s, t, Runnable), None, Interrupts(s, t))
    case TimeoutAlarm(t) => Next(IpcTimeout(s, t).s, IpcTimeout(s, t).ev)
    case RescheduleAlarm => Resched(s, None, [])
  }
}
