/** Thread ids carry a version that only half of the kernel looks at: a partner is looked up by its thread number,
    and the name under which a blocked thread waits is compared as a whole. */
module KernelVersions {
  import opened Words
  import opened KernelState
  import opened Ipc
  import opened IpcRendezvous
  import opened KernelCalls
  import opened KernelSystem
  import opened KernelRuns
  import opened KernelTheorems
  import opened L4Time

  /** snd waits to send to rcv and rcv to receive from snd, each as far as the thread number goes. */
  predicate WaitByNumber(s: State, snd: nat, rcv: nat)
    requires IsThread(s, snd) && IsThread(s, rcv)
  {
    && s.states[snd] == SendBlocked && SameThreads(s.peers[snd], s.ids[rcv].globalId)
    && s.states[rcv] == RecvBlocked
    && (s.peers[rcv] == ANYTHREAD || SameThreads(s.peers[rcv], s.ids[snd].globalId))
  }

  /** The thread that comes second finds the one that waits under any version of its number, and is served exactly
      if the waiting thread named it, or anyone, with its own version. */
  lemma {:induction false} WaitingSideDecides(s: State, t: nat, who: Word, sending: bool, p: nat)
    requires IpcInv(s) && IsThread(s, t) && who != ANYTHREAD && Lookup(s.ids, who) == Some(p)
    requires s.states[p] == Blocked(sending)
    ensures FindPartner(s, t, who, sending) ==
      if s.peers[p] == s.ids[t].globalId || (sending && s.peers[p] == ANYTHREAD) then Found(p) else NotReady
  {
  }

  /** In every reachable state two threads that wait for each other by number do so because one of them gave
      another version than the other one has. */
  lemma {:induction false} StuckByVersion(s: State, snd: nat, rcv: nat)
    requires Reachable(s) && IsThread(s, snd) && IsThread(s, rcv) && WaitByNumber(s, snd, rcv)
    ensures s.peers[snd] != s.ids[rcv].globalId ||
      (s.peers[rcv] != ANYTHREAD && s.peers[rcv] != s.ids[snd].globalId)
  {
    ReachableInv(s);
    assert !Missed(s, snd, rcv);
  }

  // ---------- How such a pair comes about ----------

  lemma {:induction false} NobodyToSendTo(s: State, t: nat, to: Word, rcv: nat)
    requires IsThread(s, t) && IsGlobalName(to) && Lookup(s.ids, to) == Some(rcv)
    requires s.states[rcv] != RecvBlocked && s.states[rcv] != Active
    ensures FindPartner(s, t, to, true) == NotReady
  {
  }

  /** A timeout of zero is none. */
  lemma {:induction false} LaterWaits(s: State, t: nat, peer: Word, timeout: Time)
    requires IsThread(s, t) && IsTime(timeout) && timeout.m == 0
    ensures SendLater(s, t, peer, timeout) == Phase(PhaseWait, SetPeer(s, t, peer), [SendBegin(t, peer)])
    ensures RecvLater(s, t, peer, timeout) == Phase(PhaseWait, SetPeer(s, t, peer), [RecvBegin(t, peer)])
  {
    NoTimeoutRefuses(s, t, timeout, SendBlocked);
    NoTimeoutRefuses(s, t, timeout, RecvBlocked);
  }

  lemma {:induction false} SendWaits(s: State, t: nat, to: Word, timeout: Time, rcv: nat)
    requires IsThread(s, t) && IsGlobalName(to) && Lookup(s.ids, to) == Some(rcv) && IsTime(timeout) && timeout.m == 0
    requires s.states[rcv] != RecvBlocked && s.states[rcv] != Active
    ensures IpcSend(s, t, to, timeout) == Phase(PhaseWait, SetPeer(s, t, to), [SendBegin(t, to)])
  {
    NobodyToSendTo(s, t, to, rcv);
    LaterWaits(s, t, to, timeout);
  }

  /** A call that sends to a thread that neither receives nor waits for its start message. */
  lemma {:induction false} SendBlocks(s: State, t: nat, to: Word, timeouts: Word, rcv: nat)
    requires Chain(s, t, {}) && IsGlobalName(to) && Lookup(s.ids, to) == Some(rcv)
    requires s.states[rcv] != RecvBlocked && s.states[rcv] != Active && s.regs[t] == IpcRegs(to, NILTHREAD, timeouts) &&
      NoSendTimeout(timeouts)
    ensures DoIpc(s, t, false, {}) == Done(SetState(SetPeer(s, t, to), t, SendBlocked), [SendBegin(t, to)])
  {
    HalvesAre(timeouts);
    SendWaits(s, t, to, SendTimeout(timeouts), rcv);
    assert SendFirst(s, t, false) == IpcSend(s, t, to, SendTimeout(timeouts));
  }

  lemma {:induction false} NobodyToReceiveFrom(s: State, t: nat)
    requires IpcInv(s) && IsThread(s, t)
    requires forall i :: 0 <= i < |s.ids| && s.states[i] == SendBlocked ==> s.peers[i] != s.ids[t].globalId
    ensures FindPartner(s, t, ANYTHREAD, false) == NotReady
  {
    forall i | 0 <= i < |s.ids|
      ensures !IsPartner(s, t, SendBlocked, i)
    {
      if IsPartner(s, t, SendBlocked, i) {
        PartnerIsExact(s, t, i);
      }
    }
  }

  lemma {:induction false} PartnerIsExact(s: State, t: nat, i: nat)
    requires IpcInv(s) && IsThread(s, t) && IsThread(s, i) && IsPartner(s, t, SendBlocked, i)
    ensures s.peers[i] == s.ids[t].globalId
  {
    assert NamesThread(s.ids, s.peers[i]) && ActsLocal(s.ids, s.ids[t].localId);
  }

  lemma {:induction false} ReceiveWaits(s: State, t: nat, timeout: Time)
    requires Chain(s, t, {}) && IsTime(timeout) && timeout.m == 0 && FindPartner(s, t, ANYTHREAD, false) == NotReady
    ensures IpcRecv(s, t, ANYTHREAD, timeout, {}) ==
      Phase(PhaseWait, SetPeer(s, t, ANYTHREAD), [RecvBegin(t, ANYTHREAD)])
  {
    LaterWaits(s, t, ANYTHREAD, timeout);
  }

  /** A call that receives from anyone, when nobody waits to send to the caller's very id. */
  lemma {:induction false} ReceiveBlocks(s: State, t: nat, timeouts: Word)
    requires Chain(s, t, {}) && s.regs[t] == IpcRegs(NILTHREAD, ANYTHREAD, timeouts) && NoRecvTimeout(timeouts)
    requires FindPartner(s, t, ANYTHREAD, false) == NotReady
    ensures DoIpc(s, t, false, {}) ==
      Done(SetState(SetPeer(s, t, ANYTHREAD), t, RecvBlocked), [RecvBegin(t, ANYTHREAD)])
  {
    var recv := IpcRecv(s, t, ANYTHREAD, RecvTimeout(timeouts), {});
    assert SendFirst(s, t, false) == Phase(PhaseDone, s, []);
    assert DoIpc(s, t, false, {}) == AfterRecv(t, ANYTHREAD, [], recv);
    HalvesAre(timeouts);
    ReceiveWaits(s, t, RecvTimeout(timeouts));
    assert [] + [RecvBegin(t, ANYTHREAD)] == [RecvBegin(t, ANYTHREAD)];
  }

  /** The sender first: under another version of rcv's number it waits until rcv names it. */
  lemma {:induction false} SenderWaits(s: State, rcv: nat, to: Word, timeouts: Word, env: Env)
    requires Inv(s) && !s.pending && UserRuns(s) && IsThread(s, rcv) && rcv != s.current && rcv != KERNEL
    requires IsGlobalName(to) && Lookup(s.ids, to) == Some(rcv)
    requires s.states[rcv] != RecvBlocked && s.states[rcv] != Active && NoSendTimeout(timeouts)
    ensures var r := Run(s, CallSteps(IpcRegs(to, NILTHREAD, timeouts), env));
      r.Next? && r.s.ids == s.ids && r.s.states[s.current] == SendBlocked && r.s.peers[s.current] == to
  {
    var regs, t := IpcRegs(to, NILTHREAD, timeouts), s.current;
    CallMade(s, regs);
    var s1 := TakeStep(s, SupervisorCall(regs)).s;
    CallerCanIpc(s1);
    SendBlocks(s1, t, to, timeouts, rcv);
    IpcServed(s1, env);
    CallRuns(s, regs, env);
  }

  /** The receiver second: if nobody waits to send to its very id, it waits for anyone, and a sender under another
      version goes on waiting for it. */
  lemma {:induction false} ReceiverWaitsToo(s: State, snd: nat, timeouts: Word, env: Env)
    requires NoRecvTimeout(timeouts)
    requires Inv(s) && !s.pending && UserRuns(s) && IsThread(s, snd) && snd >= ROOT && s.states[snd] == SendBlocked
    requires SameThreads(s.peers[snd], s.ids[s.current].globalId)
    requires forall i :: 0 <= i < |s.ids| && s.states[i] == SendBlocked ==> s.peers[i] != s.ids[s.current].globalId
    ensures var r := Run(s, CallSteps(IpcRegs(NILTHREAD, ANYTHREAD, timeouts), env));
      r.Next? && r.s.ids == s.ids && IsThread(r.s, s.current) && WaitByNumber(r.s, snd, s.current)
  {
    var regs, t := IpcRegs(NILTHREAD, ANYTHREAD, timeouts), s.current;
    CallMade(s, regs);
    var s1 := TakeStep(s, SupervisorCall(regs)).s;
    CallerCanIpc(s1);
    NobodyToReceiveFrom(s1, t);
    ReceiveBlocks(s1, t, timeouts);
    IpcServed(s1, env);
    CallRuns(s, regs, env);
  }
}
