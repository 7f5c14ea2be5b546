/** What every IPC operation keeps: no sender and receiver that are waiting for each other are left
    blocked, and the ready heap stays in step with the thread states. */
module IpcRendezvous {
  import opened Words
  import opened KernelState
  import opened Ipc
  import opened L4Time

  /** Ids are global names with distinct thread numbers, and no local id can be taken for one of them. */
  ghost predicate Names(ids: seq<Ident>) {
    DistinctNumbers(ids) &&
    forall i :: 0 <= i < |ids| ==> IsGlobalName(ids[i].globalId) && ActsLocal(ids, ids[i].localId)
  }

  ghost predicate PeersNamed(s: State) {
    forall i :: 0 <= i < |s.ids| ==>
      (s.states[i] == SendBlocked ==> NamesThread(s.ids, s.peers[i])) &&
      (s.states[i] == RecvBlocked ==> s.peers[i] == ANYTHREAD || NamesThread(s.ids, s.peers[i]))
  }

  /** snd waits to send to rcv, which waits to receive from snd or from anyone. */
  predicate Missed(s: State, snd: nat, rcv: nat)
    requires IsThread(s, snd) && IsThread(s, rcv)
  {
    && s.states[snd] == SendBlocked && s.peers[snd] == s.ids[rcv].globalId
    && s.states[rcv] == RecvBlocked && (s.peers[rcv] == ANYTHREAD || s.peers[rcv] == s.ids[snd].globalId)
  }

  ghost predicate NoMissedRendezvous(s: State) {
    forall snd, rcv :: 0 <= snd < |s.ids| && 0 <= rcv < |s.ids| ==> !Missed(s, snd, rcv)
  }

  ghost predicate IpcInv(s: State) {
    && |s.ids| <= THREAD_MAX_COUNT
    && Names(s.ids) && PeersNamed(s) && NoMissedRendezvous(s) && HeapAgrees(s)
  }

  /** The thread that executes the kernel's code is runnable. */
  predicate CurrentRuns(s: State) {
    s.current < |s.ids| && s.states[s.current] == Runnable
  }

  // ---------- Partner search is complete ----------

  lemma {:induction false} SameNumberSameThread(ids: seq<Ident>, i: nat, j: nat)
    requires DistinctNumbers(ids) && i < |ids| && j < |ids| && SameThreads(ids[i].globalId, ids[j].globalId)
    ensures i == j
  {
  }

  /** A search that finds nobody ready leaves nobody out who is named by who and willing. */
  lemma {:induction false} SearchIsComplete(s: State, target: nat, who: Word, sending: bool, p: nat)
    requires Names(s.ids) && IsThread(s, target) && IsThread(s, p)
    requires FindPartner(s, target, who, sending) == NotReady
    requires who == ANYTHREAD || who == s.ids[p].globalId
    ensures !IsPartner(s, target, Blocked(sending), p)
  {
    if who != ANYTHREAD {
      SameNumberSameThread(s.ids, Lookup(s.ids, who).value, p);
    }
  }

  /** A search for anyone finds the first willing thread in the order of the list. */
  lemma {:induction false} AnyIsFirst(s: State, target: nat, blocked: ThreadState, k: nat)
    requires IsThread(s, target) && k <= |s.ids|
    ensures var r := FindAny(s, target, blocked, k);
      r.Found? ==>
        IsPartner(s, target, blocked, r.partner) &&
        forall i :: k <= i < r.partner ==> !IsPartner(s, target, blocked, i)
    decreases |s.ids| - k
  {
    if k < |s.ids| && !IsPartner(s, target, blocked, k) {
      AnyIsFirst(s, target, blocked, k + 1);
    }
  }

  /** A message is one for a thread that has not started exactly if it is sent to an active thread whose pager exists
      and is in the sender's address space. */
  lemma {:induction false} PagerMsgIff(s: State, t: nat, who: Word, sending: bool, p: nat)
    requires IsThread(s, t)
    ensures FindPartner(s, t, who, sending) == PagerMsg(p) <==>
      sending && who != ANYTHREAD && Lookup(s.ids, who) == Some(p) && s.states[p] == Active &&
      Lookup(s.ids, s.ids[p].pager).Some? && s.ids[Lookup(s.ids, s.ids[p].pager).value].space == s.ids[t].space
  {
  }

  // ---------- Single changes ----------

  lemma {:induction false} UtcbsKeep(s: State, s': State)
    requires SameThreadsAs(s, s') && OnlyUtcbs(s, s')
    requires IpcInv(s)
    ensures IpcInv(s')
  {
    assert Ready(s') == Ready(s);
    forall snd, rcv | 0 <= snd < |s'.ids| && 0 <= rcv < |s'.ids|
      ensures !Missed(s', snd, rcv)
    {
      assert !Missed(s, snd, rcv);
    }
  }

  /** Waking a thread up, or starting it, can only remove waiting pairs. */
  lemma {:induction false} WakingKeeps(s: State, t: nat)
    requires IpcInv(s) && CurrentRuns(s) && IsThread(s, t)
    ensures IpcInv(SetState(s, t, Runnable)) && CurrentRuns(SetState(s, t, Runnable))
  {
    SetStateAgrees(s, t, Runnable);
    var s' := SetState(s, t, Runnable);
    forall snd, rcv | 0 <= snd < |s'.ids| && 0 <= rcv < |s'.ids|
      ensures !Missed(s', snd, rcv)
    {
      assert !Missed(s, snd, rcv);
    }
  }

  /** t starts to wait, in a state where nobody it waits for is waiting for it. */
  lemma {:induction false} BlockingKeeps(s: State, s': State, t: nat, st: ThreadState, peer: Word)
    requires IpcInv(s) && CurrentRuns(s) && IsThread(s, t) && t != s.current
    requires SameThreadsAs(s, s') && HeapAgrees(s')
    requires s'.states == s.states[t := st] && s'.peers == s.peers[t := peer]
    requires (st == SendBlocked && NamesThread(s.ids, peer)) ||
      (st == RecvBlocked && (peer == ANYTHREAD || NamesThread(s.ids, peer)))
    requires st == SendBlocked ==> forall rcv :: 0 <= rcv < |s.ids| && rcv != t ==> !Missed(s', t, rcv)
    requires st == RecvBlocked ==> forall snd :: 0 <= snd < |s.ids| && snd != t ==> !Missed(s', snd, t)
    ensures IpcInv(s') && CurrentRuns(s')
  {
    forall snd, rcv | 0 <= snd < |s'.ids| && 0 <= rcv < |s'.ids|
      ensures !Missed(s', snd, rcv)
    {
      assert !Missed(s, snd, rcv);
    }
  }

  lemma {:induction false} TimerKeepsHeap(s: State, t: nat, timeout: Time, st: ThreadState)
    requires IpcInv(s) && IsThread(s, t) && IsTime(timeout) && st != Runnable
    requires SetThreadTimeout(s, t, timeout, st).Armed?
    ensures var s1 := SetThreadTimeout(s, t, timeout, st).s;
      HeapAgrees(SetState(s1, t, st)) && SetState(s1, t, st).states == s.states[t := st]
  {
    SetStateAgrees(s, t, st);
    var s1 := SetThreadTimeout(s, t, timeout, st).s;
    SetStateAgrees(s1, t, st);
  }

  // ---------- The phases ----------

  lemma {:induction false} SendWaitKeeps(s: State, t: nat, to: Word, timeout: Time)
    requires IpcInv(s) && CurrentRuns(s) && IsThread(s, t) && t != s.current && IsTime(timeout)
    requires IsGlobalName(to) && FindPartner(s, t, to, true) == NotReady
    requires SetThreadTimeout(s, t, timeout, SendBlocked).Armed?
    ensures var s' := SetState(SetPeer(SetThreadTimeout(s, t, timeout, SendBlocked).s, t, to), t, SendBlocked);
      IpcInv(s') && CurrentRuns(s')
  {
    TimerKeepsHeap(s, t, timeout, SendBlocked);
    var s1 := SetThreadTimeout(s, t, timeout, SendBlocked).s;
    var s' := SetState(SetPeer(s1, t, to), t, SendBlocked);
    assert s' == SetPeer(SetState(s1, t, SendBlocked), t, to);
    assert Ready(s') == Ready(SetState(s1, t, SendBlocked));
    forall rcv | 0 <= rcv < |s.ids| && rcv != t
      ensures !Missed(s', t, rcv)
    {
      if s.ids[rcv].globalId == to {
        SearchIsComplete(s, t, to, true, rcv);
      }
    }
    BlockingKeeps(s, s', t, SendBlocked, to);
  }

  lemma {:induction false} RecvWaitKeeps(s: State, t: nat, from: Word, timeout: Time)
    requires IpcInv(s) && CurrentRuns(s) && IsThread(s, t) && t != s.current && IsTime(timeout)
    requires (from == ANYTHREAD || IsGlobalName(from)) && FindPartner(s, t, from, false) == NotReady
    requires SetThreadTimeout(s, t, timeout, RecvBlocked).Armed?
    ensures var s' := SetState(SetPeer(SetThreadTimeout(s, t, timeout, RecvBlocked).s, t, from), t, RecvBlocked);
      IpcInv(s') && CurrentRuns(s')
  {
    TimerKeepsHeap(s, t, timeout, RecvBlocked);
    var s1 := SetThreadTimeout(s, t, timeout, RecvBlocked).s;
    var s' := SetState(SetPeer(s1, t, from), t, RecvBlocked);
    assert s' == SetPeer(SetState(s1, t, RecvBlocked), t, from);
    assert Ready(s') == Ready(SetState(s1, t, RecvBlocked));
    forall snd | 0 <= snd < |s.ids| && snd != t
      ensures !Missed(s', snd, t)
    {
      if from == ANYTHREAD || s.ids[snd].globalId == from {
        SearchIsComplete(s, t, from, false, snd);
      }
    }
    BlockingKeeps(s, s', t, RecvBlocked, from);
  }

  /** The send phase, up to and including the state do_ipc then sets for the sender when it waits. */
  lemma {:induction false} IpcSendKeeps(s: State, t: nat, to: Word, timeout: Time)
    requires IpcInv(s) && CurrentRuns(s) && IsThread(s, t) && t != s.current && IsTime(timeout)
    requires IpcSend(s, t, to, timeout).Phase?
    ensures var r := IpcSend(s, t, to, timeout);
      var s' := if r.phase == PhaseWait then SetState(r.s, t, SendBlocked) else r.s;
      IpcInv(s') && CurrentRuns(s')
  {
    if to != NILTHREAD {
      match FindPartner(s, t, to, true)
      case Found(p) =>
        var s1 := CopyPayload(s, t, p);
        UtcbsKeep(s, s1.s);
        if s1.code == NoError {
          WakingKeeps(s1.s, p);
        } else {
          var s2 := ReportBoth(s1.s, t, p, s1.code);
          UtcbsKeep(s1.s, s2);
          WakingKeeps(s2, p);
        }
      case PagerMsg(p) =>
        var tag := s.utcbs[t].tag;
        if tag.flags == 0 && tag.labelField == 0 && tag.t == 0 && tag.u == 2 {
          var r := IpcSend(s, t, to, timeout);
          assert r.s == PagerStart(s, t, p);
          PagerStartKeeps(s, t, p);
        } else {
          UtcbsKeep(s, CopyPayload(s, t, p).s);
          UtcbsKeep(s, IpcSend(s, t, to, timeout).s);
        }
      case Nonexistent => UtcbsKeep(s, IpcSend(s, t, to, timeout).s);
      case NotReady =>
        if SetThreadTimeout(s, t, timeout, SendBlocked).Armed? {
          SendWaitKeeps(s, t, to, timeout);
        } else {
          UtcbsKeep(s, IpcSend(s, t, to, timeout).s);
        }
    }
  }

  lemma {:induction false} PagerStartKeeps(s: State, pager: nat, target: nat)
    requires IpcInv(s) && CurrentRuns(s) && IsThread(s, pager) && IsThread(s, target)
    ensures IpcInv(PagerStart(s, pager, target)) && CurrentRuns(PagerStart(s, pager, target))
  {
    var s1 := s.(entries := s.entries[target := s.entries[target]]);
    var r := PagerStart(s, pager, target);
    var s2 := s.(entries := r.entries);
    UtcbsKeep(s, s2);
    WakingKeeps(s2, target);
  }

  /** The receive phase, up to and including the state do_ipc then sets for the receiver when it
      waits. */
  lemma {:induction false} IpcRecvKeeps(s: State, t: nat, from: Word, timeout: Time, visited: set<nat>)
    requires Chain(s, t, visited) && IsTime(timeout)
    requires IpcInv(s) && CurrentRuns(s) && t != s.current
    requires IpcRecv(s, t, from, timeout, visited).Phase?
    ensures var r := IpcRecv(s, t, from, timeout, visited);
      var s' := if r.phase == PhaseWait then SetState(r.s, t, RecvBlocked) else r.s;
      IpcInv(s') && CurrentRuns(s')
    decreases Remaining(s, visited), 0
  {
    if from != NILTHREAD {
      match FindPartner(s, t, from, false)
      case Found(p) =>
        var s1 := CopyPayload(s, p, t);
        UtcbsKeep(s, s1.s);
        if s1.code == NoError {
          ChainGrows(s, t, visited, p);
          ChainKept(s, s1.s, p, visited + {t});
          assert t in Remaining(s, visited);
          DoIpcKeeps(s1.s, p, true, visited + {t});
        } else {
          var s2 := ReportBoth(s1.s, p, t, MessageOverflow);
          UtcbsKeep(s1.s, s2);
          WakingKeeps(s2, p);
        }
      case Nonexistent => UtcbsKeep(s, IpcRecv(s, t, from, timeout, visited).s);
      case NotReady =>
        if SetThreadTimeout(s, t, timeout, RecvBlocked).Armed? {
          RecvWaitKeeps(s, t, from, timeout);
        } else {
          UtcbsKeep(s, IpcRecv(s, t, from, timeout, visited).s);
        }
    }
  }

  /** do_ipc, with every sender it goes on to serve, keeps the invariant; the thread it was called for
      ends runnable or blocked in one of its phases. */
  lemma {:induction false} DoIpcKeeps(s: State, t: nat, skipSending: bool, visited: set<nat>)
    requires Chain(s, t, visited)
    requires IpcInv(s) && CurrentRuns(s) && t != s.current
    requires DoIpc(s, t, skipSending, visited).Done?
    ensures var s' := DoIpc(s, t, skipSending, visited).s;
      IpcInv(s') && CurrentRuns(s') && s'.states[t] in {Runnable, SendBlocked, RecvBlocked}
    decreases Remaining(s, visited), 1
  {
    var regs := s.regs[t];
    var send := if skipSending then Phase(PhaseDone, s, []) else IpcSend(s, t, regs.r0, SendTimeout(regs.r2));
    if !skipSending {
      IpcSendKeeps(s, t, regs.r0, SendTimeout(regs.r2));
    }
    match send.phase
    case PhaseError =>
      UtcbsKeep(send.s, FlagError(send.s, t));
      WakingKeeps(FlagError(send.s, t), t);
    case PhaseWait =>
    case PhaseDone =>
      ChainKept(s, send.s, t, visited);
      IpcRecvKeeps(send.s, t, regs.r1, RecvTimeout(regs.r2), visited);
      var recv := IpcRecv(send.s, t, regs.r1, RecvTimeout(regs.r2), visited);
      match recv.phase
      case PhaseError =>
        UtcbsKeep(recv.s, FlagError(recv.s, t));
        WakingKeeps(FlagError(recv.s, t), t);
      case PhaseWait =>
      case PhaseDone => WakingKeeps(recv.s, t);
  }

  /** A timeout wakes its thread and keeps the invariant. */
  lemma {:induction false} IpcTimeoutKeeps(s: State, t: nat)
    requires IpcInv(s) && CurrentRuns(s) && IsThread(s, t)
    ensures IpcInv(IpcTimeout(s, t).s) && CurrentRuns(IpcTimeout(s, t).s)
  {
    if s.states[t] == RecvBlocked || s.states[t] == SendBlocked {
      var s1 := SetError(FlagError(s, t), t, IpcFailure(s.states[t] == RecvBlocked, IpcError.Timeout));
      UtcbsKeep(s, s1);
      WakingKeeps(s1, t);
    }
  }
}
