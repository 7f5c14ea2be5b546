/** Synchronous IPC of kern/syscall/ipc.c as functions on the kernel state.

    Events record what the phases did: they are emitted at the points where the code begins a
    phase, copies a message and ends a phase, and are not part of the kernel's state. */
module Ipc {
  import opened Words
  import opened KernelState
  import opened MessageCopy
  import opened L4Time

  datatype Event =
    | SendBegin(who: nat, dest: Word)
    | RecvBegin(who: nat, spec: Word)
    | Copied(from: nat, to: nat)
    | PagerCopied(from: nat, to: nat)
    | PagerStarted(from: nat, to: nat)
    | SendEnd(who: nat, ok: bool)
    | RecvEnd(who: nat, ok: bool)
    | CutShort(who: nat, receiving: bool)

  /** Halt: a panic, an endless loop, or an operand outside the model. */
  datatype Outcome = Done(s: State, ev: seq<Event>) | Halt

  datatype Phase = PhaseDone | PhaseError | PhaseWait
  datatype PhaseOutcome = Phase(phase: Phase, s: State, ev: seq<Event>) | PhaseHalt

  /** A thread that is taken out of an open phase; its partner and its error word hear nothing of it. */
  function Interrupts(s: State, t: nat): seq<Event>
    requires IsThread(s, t)
  {
    match s.states[t]
    case SendBlocked => [CutShort(t, false)]
    case RecvBlocked => [CutShort(t, true)]
    case _ => []
  }

  // ---------- Looking for a partner ----------

  datatype Search = Nonexistent | NotReady | Found(partner: nat) | PagerMsg(partner: nat)

  /** The destination of a send: a thread's global name (or nil, to skip the phase). */
  predicate SendPeer(id: Word) {
    id == NILTHREAD || IsGlobalName(id)
  }

  /** The source of a receive may also be any thread. */
  predicate RecvPeer(id: Word) {
    id == NILTHREAD || id == ANYTHREAD || IsGlobalName(id)
  }

  /** is_viable_ipc_partner: the blocked partner is willing to meet target. */
  predicate IsViable(s: State, target: nat, partner: nat)
    requires IsThread(s, target) && IsThread(s, partner)
  {
    var from := s.peers[partner];
    || from == ANYTHREAD
    || (from == ANYLOCALTHREAD && s.ids[partner].space == s.ids[target].space)
    || from == s.ids[target].globalId
    || from == s.ids[target].localId
  }

  predicate IsPartner(s: State, target: nat, blocked: ThreadState, partner: nat)
    requires IsThread(s, target) && IsThread(s, partner)
  {
    s.states[partner] == blocked && IsViable(s, target, partner)
  }

  /** find_ipc_partner_any, from index k on: the first willing thread. */
  function FindAny(s: State, target: nat, blocked: ThreadState, k: nat): (r: Search)
    requires IsThread(s, target) && k <= |s.ids|
    ensures r.Found? || r.NotReady?
    ensures r.Found? ==> k <= r.partner < |s.ids| && IsPartner(s, target, blocked, r.partner)
    ensures r.NotReady? ==> forall i :: k <= i < |s.ids| ==> !IsPartner(s, target, blocked, i)
    decreases |s.ids| - k
  {
    if k == |s.ids| then NotReady
    else if IsPartner(s, target, blocked, k) then Found(k)
    else FindAny(s, target, blocked, k + 1)
  }

  function Blocked(sending: bool): ThreadState {
    if sending then RecvBlocked else SendBlocked
  }

  /** find_ipc_partner, for the peers of the model. */
  function FindPartner(s: State, target: nat, who: Word, sending: bool): (r: Search)
    requires IsThread(s, target)
    ensures r.Found? || r.PagerMsg? ==> IsThread(s, r.partner)
    ensures r.Found? ==> IsPartner(s, target, Blocked(sending), r.partner)
    ensures r.PagerMsg? ==> sending && s.states[r.partner] == Active
  {
    if who == ANYTHREAD then FindAny(s, target, Blocked(sending), 0)
    else
      match Lookup(s.ids, who)
      case None => Nonexistent
      case Some(p) =>
        if IsPartner(s, target, Blocked(sending), p) then Found(p)
        else
          var pager := Lookup(s.ids, s.ids[p].pager);
          if sending && s.states[p] == Active && pager.Some? && s.ids[pager.value].space == s.ids[target].space
          then PagerMsg(p)
          else NotReady
  }

  // ---------- Pieces of a phase ----------

  function SendTimeout(timeouts: Word): Time { TimeOfRaw(timeouts / 65536) }
  function RecvTimeout(timeouts: Word): Time { TimeOfRaw(timeouts % 65536) }

  datatype TimerResult = Armed(s: State) | Refused | TimerPanic

  /** set_thread_timeout; the alarm itself is a step of its own. */
  function SetThreadTimeout(s: State, t: nat, timeout: Time, st: ThreadState): TimerResult
    requires IsThread(s, t) && IsTime(timeout)
  {
    if IsEqual(timeout, NEVER) then Armed(s)
    else if IsEqual(timeout, ZERO_TIME) then Refused
    else if timeout.point then TimerPanic
    else Armed(SetState(s, t, st))
  }

  /** A zero timeout waits like never: no timeout at all makes a phase give up at once, and the timer is
      armed, or the kernel panics for a time point, exactly for a mantissa other than zero. */
  lemma {:induction false} NoTimeoutRefuses(s: State, t: nat, timeout: Time, st: ThreadState)
    requires IsThread(s, t) && IsTime(timeout)
    ensures SetThreadTimeout(s, t, timeout, st) ==
      if timeout.m == 0 then Armed(s) else if timeout.point then TimerPanic else Armed(SetState(s, t, st))
  {
    NeverAndZeroAreOne(timeout);
  }

  datatype PayloadResult = Payload(s: State, code: IpcError) | PayloadStuck

  /** copy_payload between two threads. */
  function CopyPayload(s: State, from: nat, to: nat): (r: PayloadResult)
    requires IsThread(s, from) && IsThread(s, to)
    ensures r.Payload? ==> SameThreadsAs(s, r.s) && OnlyUtcbs(s, r.s)
  {
    var f, t := s.utcbs[from], s.utcbs[to];
    match CopyMessage(f.tag, f.words, t.words, s.mem)
    case Stuck => PayloadStuck
    case Overflow(words, mem) =>
      Payload(SetUtcb(s, to, t.(words := words)).(mem := mem), MessageOverflow)
    case Copied(tag, words, mem) =>
      var s1 := SetUtcb(s, to, t.(tag := tag, words := words, sender := s.ids[from].globalId)).(mem := mem);
      Payload(SetR0(s1, to, if s.ids[to].space == s.ids[from].space then s.ids[from].localId else s.ids[from].globalId),
        NoError)
  }

  /** No thread's state, partner or place in the ready queue changed. */
  predicate OnlyUtcbs(s: State, s': State) {
    s'.heap == s.heap && s'.states == s.states && s'.peers == s.peers
  }

  /** The error reports of a failed copy, for both sides. */
  function ReportBoth(s: State, sender: nat, receiver: nat, code: IpcError): (r: State)
    requires IsThread(s, sender) && IsThread(s, receiver)
    ensures SameThreadsAs(s, r) && OnlyUtcbs(s, r)
  {
    var s1 := SetError(s, sender, IpcFailure(false, code));
    var s2 := SetError(s1, receiver, IpcFailure(true, code));
    FlagError(FlagError(s2, sender), receiver)
  }

  /** pager_start_thread: an active thread gets its stack and program counter and becomes runnable.
      THREAD_CTX_STACK_WORD_COUNT words of 4 bytes are reserved below the given stack pointer. */
  function PagerStart(s: State, pager: nat, target: nat): State
    requires IsThread(s, pager) && IsThread(s, target)
  {
    var words := s.utcbs[pager].words;
    var sp := if words[2] >= 32 then words[2] - 32 else words[2] + 0xFFFF_FFE0;
    var s1 := s.(entries := s.entries[target := Entry(words[1], sp, THUMB_BIT, RETURN_TO_THREAD)]);
    SetState(s1, target, Runnable)
  }

  // ---------- The phases ----------

  /** No thread became send-blocked and no send-blocked thread changed its destination. */
  ghost predicate NoNewSenders(s: State, s': State)
    requires |s'.ids| == |s.ids|
  {
    forall i {:trigger s'.states[i]} :: 0 <= i < |s.ids| && s'.states[i] == SendBlocked ==>
      s.states[i] == SendBlocked && s'.peers[i] == s.peers[i]
  }

  /** A phase of sending leaves the threads alone and, when it is done, made no one send-blocked. */
  ghost predicate SendsQuietly(s: State, r: PhaseOutcome) {
    r.Phase? ==> SameThreadsAs(s, r.s) && (r.phase == PhaseDone ==> NoNewSenders(s, r.s))
  }

  function SendToPartner(s: State, t: nat, to: Word, p: nat): (r: PhaseOutcome)
    requires IsThread(s, t) && IsThread(s, p)
    ensures SendsQuietly(s, r)
  {
    match CopyPayload(s, t, p)
    case PayloadStuck => PhaseHalt
    case Payload(s1, code) =>
      if code == NoError then
        Phase(PhaseDone, SetState(s1, p, Runnable),
          [SendBegin(t, to), Event.Copied(t, p), RecvEnd(p, true), SendEnd(t, true)])
      else
        Phase(PhaseError, SetState(ReportBoth(s1, t, p, code), p, Runnable),
          [SendBegin(t, to), RecvEnd(p, false), SendEnd(t, false)])
  }

  /** A pager's message to a thread that has not started, other than the one that starts it. */
  function CopyAsPager(s: State, t: nat, to: Word, p: nat): (r: PhaseOutcome)
    requires IsThread(s, t) && IsThread(s, p)
    ensures SendsQuietly(s, r)
  {
    match CopyPayload(s, t, p)
    case PayloadStuck => PhaseHalt
    case Payload(s1, code) =>
      if code == NoError then
        Phase(PhaseDone, s1, [SendBegin(t, to), PagerCopied(t, p), SendEnd(t, true)])
      else
        Phase(PhaseError, FlagError(SetError(s1, t, IpcFailure(false, code)), t), [SendBegin(t, to), SendEnd(t, false)])
  }

  function SendAsPager(s: State, t: nat, to: Word, p: nat): (r: PhaseOutcome)
    requires IsThread(s, t) && IsThread(s, p)
    ensures SendsQuietly(s, r)
  {
    var tag := s.utcbs[t].tag;
    if tag.flags == 0 && tag.labelField == 0 && tag.t == 0 && tag.u == 2 then
      Phase(PhaseDone, PagerStart(s, t, p), [SendBegin(t, to), PagerStarted(t, p), SendEnd(t, true)])
    else CopyAsPager(s, t, to, p)
  }

  function SendLater(s: State, t: nat, to: Word, timeout: Time): (r: PhaseOutcome)
    requires IsThread(s, t) && IsTime(timeout)
    ensures SendsQuietly(s, r)
  {
    match SetThreadTimeout(s, t, timeout, SendBlocked)
    case TimerPanic => PhaseHalt
    case Refused => Phase(PhaseError, SetError(s, t, IpcFailure(false, Aborted)), [SendBegin(t, to), SendEnd(t, false)])
    case Armed(s1) => Phase(PhaseWait, SetPeer(s1, t, to), [SendBegin(t, to)])
  }

  function IpcSend(s: State, t: nat, to: Word, timeout: Time): (r: PhaseOutcome)
    requires IsThread(s, t) && IsTime(timeout)
    ensures SendsQuietly(s, r)
  {
    if to == NILTHREAD then Phase(PhaseDone, s, [])
    else if !SendPeer(to) then PhaseHalt
    else
      match FindPartner(s, t, to, true)
      case Found(p) => SendToPartner(s, t, to, p)
      case PagerMsg(p) => SendAsPager(s, t, to, p)
      case Nonexistent =>
        Phase(PhaseError, SetError(s, t, IpcFailure(false, NonexistentPartner)), [SendBegin(t, to), SendEnd(t, false)])
      case NotReady => SendLater(s, t, to, timeout)
  }

  /** The situation in which the receive phase of t runs: the threads of visited are the receivers
      further up the recursion. Each of them, and t, is either not send-blocked or send-blocked to
      one of visited. */
  ghost predicate Chain(s: State, t: nat, visited: set<nat>) {
    && IsThread(s, t) && t !in visited && (forall i :: i in visited ==> IsThread(s, i))
    && DistinctNumbers(s.ids)
    && (forall i :: 0 <= i < |s.ids| ==> ActsLocal(s.ids, s.ids[i].localId))
    && (forall i :: 0 <= i < |s.ids| && s.states[i] == SendBlocked ==> NamesThread(s.ids, s.peers[i]))
    && (forall i :: (i in visited || i == t) && s.states[i] == SendBlocked ==> WaitsForOneOf(s, i, visited))
  }

  ghost predicate WaitsForOneOf(s: State, i: nat, visited: set<nat>)
    requires IsThread(s, i)
  {
    exists j :: j in visited && IsThread(s, j) && s.ids[j].globalId == s.peers[i]
  }

  /** The threads that can still join the recursion. */
  ghost function Remaining(s: State, visited: set<nat>): set<nat> {
    set i | 0 <= i < |s.ids| && i !in visited
  }

  lemma {:induction false} ChainKept(s: State, s': State, t: nat, visited: set<nat>)
    requires Chain(s, t, visited) && SameThreadsAs(s, s') && NoNewSenders(s, s')
    ensures Chain(s', t, visited)
  {
    forall i | (i in visited || i == t) && s'.states[i] == SendBlocked
      ensures WaitsForOneOf(s', i, visited)
    {
      assert WaitsForOneOf(s, i, visited);
      var j :| j in visited && IsThread(s, j) && s.ids[j].globalId == s.peers[i];
      assert s'.ids[j].globalId == s'.peers[i];
    }
  }

  /** The sender found by a receive phase is new to the recursion: its destination is t alone, while
      every send-blocked thread already on it waits for one of visited. */
  lemma {:induction false} ChainGrows(s: State, t: nat, visited: set<nat>, p: nat)
    requires Chain(s, t, visited)
    requires IsThread(s, p) && IsPartner(s, t, SendBlocked, p)
    ensures s.peers[p] == s.ids[t].globalId
    ensures Chain(s, p, visited + {t})
  {
    assert s.peers[p] == s.ids[t].globalId;
    forall j | j in visited
      ensures s.ids[j].globalId != s.ids[t].globalId
    {
      assert j != t;
    }
    assert !WaitsForOneOf(s, p, visited);
    assert p !in visited && p != t;
    forall i | (i in visited + {t} || i == p) && s.states[i] == SendBlocked
      ensures WaitsForOneOf(s, i, visited + {t})
    {
      if i == p {
        assert t in visited + {t};
      } else {
        assert WaitsForOneOf(s, i, visited);
        var j :| j in visited && IsThread(s, j) && s.ids[j].globalId == s.peers[i];
        assert j in visited + {t};
      }
    }
  }

  /** What do_ipc makes of the outcome of its receive phase, the send phase having had the events ev. */
  function AfterRecv(t: nat, from: Word, ev: seq<Event>, recv: PhaseOutcome): Outcome
    requires recv.Phase? ==> IsThread(recv.s, t)
  {
    match recv
    case PhaseHalt => Halt
    case Phase(PhaseError, s, ev2) => Done(SetState(FlagError(s, t), t, Runnable), ev + ev2)
    case Phase(PhaseWait, s, ev2) => Done(SetState(s, t, RecvBlocked), ev + ev2)
    case Phase(PhaseDone, s, ev2) =>
      Done(SetState(s, t, Runnable), ev + ev2 + (if from == NILTHREAD then [] else [RecvEnd(t, true)]))
  }

  /** The recursion holds each thread once, so its depth is at most the number of threads. */
  lemma {:induction false} ChainIsShort(s: State, t: nat, visited: set<nat>)
    requires Chain(s, t, visited)
    ensures |visited| < |s.ids|
  {
    BelowBound(visited + {t}, |s.ids|);
  }

  function RecvOverflow(s: State, t: nat, from: Word, p: nat): PhaseOutcome
    requires IsThread(s, t) && IsThread(s, p)
  {
    Phase(PhaseError, SetState(ReportBoth(s, p, t, MessageOverflow), p, Runnable),
          [RecvBegin(t, from), SendEnd(p, false), RecvEnd(t, false)])
  }

  function RecvLater(s: State, t: nat, from: Word, timeout: Time): (r: PhaseOutcome)
    requires IsThread(s, t) && IsTime(timeout)
    ensures r.Phase? ==> SameThreadsAs(s, r.s)
  {
    match SetThreadTimeout(s, t, timeout, RecvBlocked)
    case TimerPanic => PhaseHalt
    case Refused => Phase(PhaseError, SetError(s, t, IpcFailure(true, Aborted)),
      [RecvBegin(t, from), RecvEnd(t, false)])
    case Armed(s1) => Phase(PhaseWait, SetPeer(s1, t, from), [RecvBegin(t, from)])
  }

  /** What the receive phase of t makes of the call of the sender p it served. */
  function AfterServing(t: nat, from: Word, p: nat, call: Outcome): PhaseOutcome {
    match call
    case Halt => PhaseHalt
    case Done(s, ev) => Phase(PhaseDone, s, [RecvBegin(t, from), Event.Copied(p, t), SendEnd(p, true)] + ev)
  }

  function IpcRecv(s: State, t: nat, from: Word, timeout: Time, ghost visited: set<nat>): (r: PhaseOutcome)
    requires Chain(s, t, visited) && IsTime(timeout)
    ensures r.Phase? ==> SameThreadsAs(s, r.s)
    decreases Remaining(s, visited), 0
  {
    if from == NILTHREAD then Phase(PhaseDone, s, [])
    else if !RecvPeer(from) then PhaseHalt
    else
      match FindPartner(s, t, from, false)
      case Found(p) => (
        match CopyPayload(s, p, t)
        case PayloadStuck => PhaseHalt
        case Payload(s1, code) =>
          if code == NoError then
            ChainGrows(s, t, visited, p);
            ChainKept(s, s1, p, visited + {t});
            assert Remaining(s1, visited + {t}) < Remaining(s, visited) by {
              assert t in Remaining(s, visited);
            }
            AfterServing(t, from, p, DoIpc(s1, p, true, visited + {t}))
          else RecvOverflow(s1, t, from, p)
        )
      case Nonexistent =>
        Phase(PhaseError, SetError(s, t, IpcFailure(true, NonexistentPartner)), [RecvBegin(t, from), RecvEnd(t, false)])
      case NotReady => RecvLater(s, t, from, timeout)
      case PagerMsg(p) => PhaseHalt
  }

  /** The send phase of a call, unless it is skipped. */
  function SendFirst(s: State, t: nat, skipSending: bool): (r: PhaseOutcome)
    requires IsThread(s, t)
    ensures SendsQuietly(s, r)
  {
    if skipSending then Phase(PhaseDone, s, []) else IpcSend(s, t, s.regs[t].r0, SendTimeout(s.regs[t].r2))
  }

  /** do_ipc: the send phase unless it is skipped, then the receive phase. A completed receive runs
      the sender's own receive phase before the receiver becomes runnable. */
  function DoIpc(s: State, t: nat, skipSending: bool, ghost visited: set<nat>): (r: Outcome)
    requires Chain(s, t, visited)
    ensures r.Done? ==> SameThreadsAs(s, r.s)
    decreases Remaining(s, visited), 1
  {
    var regs := s.regs[t];
    match SendFirst(s, t, skipSending)
    case PhaseHalt => Halt
    case Phase(PhaseError, s1, ev) => Done(SetState(FlagError(s1, t), t, Runnable), ev)
    case Phase(PhaseWait, s1, ev) => Done(SetState(s1, t, SendBlocked), ev)
    case Phase(PhaseDone, s1, ev) =>
      ChainKept(s, s1, t, visited);
      AfterRecv(t, regs.r1, ev, IpcRecv(s1, t, regs.r1, RecvTimeout(regs.r2), visited))
  }

  /** The receive phase that finds the sender p ready and takes its message. */
  lemma {:induction false} ServedIs(s: State, t: nat, from: Word, timeout: Time, visited: set<nat>, p: nat, s1: State)
    requires Chain(s, t, visited) && IsTime(timeout) && from != NILTHREAD && RecvPeer(from)
    requires FindPartner(s, t, from, false) == Found(p) && CopyPayload(s, p, t) == Payload(s1, NoError)
    ensures IsThread(s1, p) && s.peers[p] == s.ids[t].globalId
    ensures Chain(s1, p, visited + {t}) && Remaining(s1, visited + {t}) < Remaining(s, visited)
    ensures IpcRecv(s, t, from, timeout, visited) == AfterServing(t, from, p, DoIpc(s1, p, true, visited + {t}))
  {
    ChainGrows(s, t, visited, p);
    ChainKept(s, s1, p, visited + {t});
    assert t in Remaining(s, visited);
  }

  /** do_ipc_timeout, for the thread the alarm was set for. */
  function IpcTimeout(s: State, t: nat): Outcome
    requires IsThread(s, t)
  {
    if s.states[t] != RecvBlocked && s.states[t] != SendBlocked then Done(s, [])
    else
      var receiving := s.states[t] == RecvBlocked;
      var s1 := SetError(FlagError(s, t), t, IpcFailure(receiving, IpcError.Timeout));
      Done(SetState(s1, t, Runnable), [if receiving then RecvEnd(t, false) else SendEnd(t, false)])
  }
}
