/** What IPC leaves alone, when a phase fails, and what a timeout leaves. */
module IpcQuiet {
  import opened Ipc
  import opened IpcContents
  import opened IpcErrors
  import opened KernelState
  import opened L4Time
  import opened MessageCopy
  import opened Words

  // ---------- Threads that nothing happens to ----------

  /** A message to w, or a failed end of a phase of w. */
  predicate Touches(e: Event, w: nat) {
    match e
    case Copied(_, t) => t == w
    case PagerCopied(_, t) => t == w
    case SendEnd(v, ok) => v == w && !ok
    case RecvEnd(v, ok) => v == w && !ok
    case _ => false
  }

  ghost predicate Touched(ev: seq<Event>, w: nat) {
    exists i :: 0 <= i < |ev| && Touches(ev[i], w)
  }

  /** The tag, the error word and the sender's id are as they were. */
  predicate SameFace(u: Utcb, u': Utcb) {
    u'.tag == u.tag && u'.error == u.error && u'.sender == u.sender
  }

  ghost predicate Quiet(s: State, ev: seq<Event>, s2: State)
    requires SameThreadsAs(s, s2)
  {
    forall w :: 0 <= w < |s.ids| && !Touched(ev, w) ==> SameFace(s.utcbs[w], s2.utcbs[w])
  }

  lemma {:induction false} TouchedMore(a: seq<Event>, b: seq<Event>, w: nat)
    ensures Touched(a + b, w) <==> Touched(a, w) || Touched(b, w)
  {
    var ev := a + b;
    if Touched(a, w) {
      var i :| 0 <= i < |a| && Touches(a[i], w);
      assert Touches(ev[i], w);
    }
    if Touched(b, w) {
      var i :| 0 <= i < |b| && Touches(b[i], w);
      assert Touches(ev[|a| + i], w);
    }
  }

  lemma {:induction false} QuietJoin(s: State, ev1: seq<Event>, s1: State, ev2: seq<Event>, s2: State)
    requires SameThreadsAs(s, s1) && SameThreadsAs(s1, s2) && Quiet(s, ev1, s1) && Quiet(s1, ev2, s2)
    ensures SameThreadsAs(s, s2) && Quiet(s, ev1 + ev2, s2)
  {
    forall w | 0 <= w < |s.ids| && !Touched(ev1 + ev2, w)
      ensures SameFace(s.utcbs[w], s2.utcbs[w])
    {
      TouchedMore(ev1, ev2, w);
    }
  }

  /** Only threads that ev touches differ. */
  lemma {:induction false} QuietBut(s: State, ev: seq<Event>, s2: State, a: nat, b: nat)
    requires SameThreadsAs(s, s2) && Touched(ev, a) && Touched(ev, b)
    requires forall w :: 0 <= w < |s.ids| && w != a && w != b ==> SameFace(s.utcbs[w], s2.utcbs[w])
    ensures Quiet(s, ev, s2)
  {
  }

  lemma {:induction false} OverflowQuiet(s: State, t: nat, from: Word, p: nat)
    requires IsThread(s, t) && IsThread(s, p) && p != t && CopyPayload(s, p, t).Payload? &&
      CopyPayload(s, p, t).code != NoError
    ensures var r := RecvOverflow(CopyPayload(s, p, t).s, t, from, p);
      SameThreadsAs(s, r.s) && Quiet(s, r.ev, r.s) && Touched(r.ev, t)
  {
    var r := RecvOverflow(CopyPayload(s, p, t).s, t, from, p);
    assert Touches(r.ev[1], p) && Touches(r.ev[2], t);
    QuietBut(s, r.ev, r.s, t, p);
  }

  lemma {:induction false} FirstQuiet(s: State, t: nat, from: Word, p: nat, s1: State)
    requires IsThread(s, t) && IsThread(s, p) && CopyPayload(s, p, t) == Payload(s1, NoError)
    ensures SameThreadsAs(s, s1) && Quiet(s, [RecvBegin(t, from), Event.Copied(p, t), SendEnd(p, true)], s1)
  {
    var ev := [RecvBegin(t, from), Event.Copied(p, t), SendEnd(p, true)];
    assert Touches(ev[1], t);
    QuietBut(s, ev, s1, t, t);
  }

  lemma {:induction false} NobodyQuiet(s: State, t: nat, receiving: bool, ev: seq<Event>)
    requires IsThread(s, t) && |ev| == 2 && Touches(ev[1], t)
    ensures Quiet(s, ev, SetError(s, t, IpcFailure(receiving, NonexistentPartner))) && Touched(ev, t)
  {
    QuietBut(s, ev, SetError(s, t, IpcFailure(receiving, NonexistentPartner)), t, t);
  }

  lemma {:induction false} LaterQuiet(s: State, t: nat, peer: Word, timeout: Time)
    requires IsThread(s, t) && IsTime(timeout)
    ensures var r := RecvLater(s, t, peer, timeout); r.Phase? ==> Quiet(s, r.ev, r.s) && r.phase == PhaseWait
    ensures var r := SendLater(s, t, peer, timeout); r.Phase? ==> Quiet(s, r.ev, r.s) && r.phase == PhaseWait
  {
    NoTimeoutRefuses(s, t, timeout, RecvBlocked);
    NoTimeoutRefuses(s, t, timeout, SendBlocked);
  }

  lemma {:induction false} RecvQuiet(s: State, t: nat, from: Word, timeout: Time, visited: set<nat>)
    requires Chain(s, t, visited) && IsTime(timeout) && IpcRecv(s, t, from, timeout, visited).Phase?
    ensures var r := IpcRecv(s, t, from, timeout, visited);
      Quiet(s, r.ev, r.s) && (r.phase == PhaseError ==> Touched(r.ev, t))
    decreases Remaining(s, visited), 1
  {
    if from != NILTHREAD {
      match FindPartner(s, t, from, false)
      case Found(p) =>
        ChainGrows(s, t, visited, p);
        var c := CopyPayload(s, p, t);
        if c.code == NoError {
          FoundQuiet(s, t, from, timeout, visited, p, c.s);
        } else {
          OverflowQuiet(s, t, from, p);
        }
      case Nonexistent => NobodyQuiet(s, t, true, [RecvBegin(t, from), RecvEnd(t, false)]);
      case NotReady => LaterQuiet(s, t, from, timeout);
    }
  }

  lemma {:induction false} FoundQuiet(s: State, t: nat, from: Word, timeout: Time, visited: set<nat>, p: nat, s1: State)
    requires Chain(s, t, visited) && IsTime(timeout) && from != NILTHREAD && RecvPeer(from)
    requires FindPartner(s, t, from, false) == Found(p) && CopyPayload(s, p, t) == Payload(s1, NoError)
    requires IpcRecv(s, t, from, timeout, visited).Phase?
    ensures var r := IpcRecv(s, t, from, timeout, visited); Quiet(s, r.ev, r.s) && r.phase == PhaseDone
    decreases Remaining(s, visited), 0
  {
    ServedIs(s, t, from, timeout, visited, p, s1);
    var d := DoIpc(s1, p, true, visited + {t});
    ServedCallQuiet(s1, p, visited + {t});
    FirstQuiet(s, t, from, p, s1);
    QuietJoin(s, [RecvBegin(t, from), Event.Copied(p, t), SendEnd(p, true)], s1, d.ev, d.s);
  }

  lemma {:induction false} ServedCallQuiet(s: State, t: nat, visited: set<nat>)
    requires Chain(s, t, visited) && DoIpc(s, t, true, visited).Done?
    ensures var r := DoIpc(s, t, true, visited); Quiet(s, r.ev, r.s)
    decreases Remaining(s, visited), 2
  {
    var from := s.regs[t].r1;
    var recv := IpcRecv(s, t, from, RecvTimeout(s.regs[t].r2), visited);
    RecvQuiet(s, t, from, RecvTimeout(s.regs[t].r2), visited);
    var r := DoIpc(s, t, true, visited);
    EndQuiet(s, t, from, recv, r);
  }

  /** The end of do_ipc writes to the caller's UTCB only after a failed phase. */
  lemma {:induction false} EndQuiet(s: State, t: nat, from: Word, recv: PhaseOutcome, r: Outcome)
    requires IsThread(s, t) && recv.Phase? && SameThreadsAs(s, recv.s) && r == AfterRecv(t, from, [], recv)
    requires Quiet(s, recv.ev, recv.s) && (recv.phase == PhaseError ==> Touched(recv.ev, t))
    ensures r.Done? && SameThreadsAs(s, r.s) && Quiet(s, r.ev, r.s)
  {
    var more := if recv.phase == PhaseDone && from != NILTHREAD then [RecvEnd(t, true)] else [];
    assert r.ev == recv.ev + more;
    forall w | 0 <= w < |s.ids| && !Touched(r.ev, w)
      ensures SameFace(s.utcbs[w], r.s.utcbs[w])
    {
      TouchedMore(recv.ev, more, w);
    }
  }

  lemma {:induction false} PartnerQuiet(s: State, t: nat, to: Word, p: nat)
    requires IsThread(s, t) && IsThread(s, p) && p != t && SendToPartner(s, t, to, p).Phase?
    ensures var r := SendToPartner(s, t, to, p); Quiet(s, r.ev, r.s) && (r.phase == PhaseError ==> Touched(r.ev, t))
  {
    var r := SendToPartner(s, t, to, p);
    if CopyPayload(s, t, p).code == NoError {
      assert Touches(r.ev[1], p);
      QuietBut(s, r.ev, r.s, p, p);
    } else {
      assert Touches(r.ev[1], p) && Touches(r.ev[2], t);
      QuietBut(s, r.ev, r.s, t, p);
    }
  }

  lemma {:induction false} PagerQuiet(s: State, t: nat, to: Word, p: nat)
    requires IsThread(s, t) && IsThread(s, p) && p != t && SendAsPager(s, t, to, p).Phase?
    ensures var r := SendAsPager(s, t, to, p); Quiet(s, r.ev, r.s) && (r.phase == PhaseError ==> Touched(r.ev, t))
  {
    var r := SendAsPager(s, t, to, p);
    if r.phase == PhaseError {
      assert Touches(r.ev[1], t);
      QuietBut(s, r.ev, r.s, t, t);
    } else if r.ev[1].PagerCopied? {
      assert Touches(r.ev[1], p);
      QuietBut(s, r.ev, r.s, p, p);
    }
  }

  lemma {:induction false} SendQuiet(s: State, t: nat, to: Word, timeout: Time)
    requires IsThread(s, t) && IsTime(timeout) && s.states[t] != RecvBlocked && s.states[t] != Active
    requires IpcSend(s, t, to, timeout).Phase?
    ensures var r := IpcSend(s, t, to, timeout); Quiet(s, r.ev, r.s) && (r.phase == PhaseError ==> Touched(r.ev, t))
  {
    if to != NILTHREAD {
      match FindPartner(s, t, to, true)
      case Found(p) => PartnerQuiet(s, t, to, p);
      case PagerMsg(p) => PagerQuiet(s, t, to, p);
      case NotReady => LaterQuiet(s, t, to, timeout);
      case Nonexistent => NobodyQuiet(s, t, false, [SendBegin(t, to), SendEnd(t, false)]);
    }
  }

  lemma {:induction false} FlagQuiet(s: State, ev: seq<Event>, s1: State, t: nat, s2: State)
    requires SameThreadsAs(s, s1) && IsThread(s, t) && Quiet(s, ev, s1) && SameThreadsAs(s1, s2)
    requires Touched(ev, t) || s2.utcbs[t] == s1.utcbs[t]
    requires forall w :: 0 <= w < |s.ids| && w != t ==> s2.utcbs[w] == s1.utcbs[w]
    ensures Quiet(s, ev, s2)
  {
  }

  lemma {:induction false} AfterRecvJoin(t: nat, from: Word, ev: seq<Event>, recv: PhaseOutcome)
    requires recv.Phase? && IsThread(recv.s, t)
    ensures var rest := AfterRecv(t, from, [], recv);
      rest.Done? && AfterRecv(t, from, ev, recv) == Done(rest.s, ev + rest.ev)
  {
    var rest := AfterRecv(t, from, [], recv);
    assert ev + ([] + recv.ev) == ev + recv.ev;
    if recv.phase == PhaseDone {
      var more := if from == NILTHREAD then [] else [RecvEnd(t, true)];
      assert ev + ([] + recv.ev + more) == ev + recv.ev + more;
    }
  }

  /** A call leaves the tag, the error word and the sender's id of every thread alone that it neither gives a message
      nor ends a phase of with an error: among them every sender that was served well and goes on to receive nothing. */
  lemma {:induction false} CallQuiet(s: State, t: nat)
    requires Chain(s, t, {}) && s.states[t] != RecvBlocked && s.states[t] != Active && DoIpc(s, t, false, {}).Done?
    ensures var r := DoIpc(s, t, false, {}); Quiet(s, r.ev, r.s)
  {
    var regs, r := s.regs[t], DoIpc(s, t, false, {});
    var send := IpcSend(s, t, regs.r0, SendTimeout(regs.r2));
    SendQuiet(s, t, regs.r0, SendTimeout(regs.r2));
    if send.phase == PhaseDone {
      ChainKept(s, send.s, t, {});
      var recv := IpcRecv(send.s, t, regs.r1, RecvTimeout(regs.r2), {});
      RecvQuiet(send.s, t, regs.r1, RecvTimeout(regs.r2), {});
      var rest := AfterRecv(t, regs.r1, [], recv);
      assert r == AfterRecv(t, regs.r1, send.ev, recv);
      AfterRecvJoin(t, regs.r1, send.ev, recv);
      EndQuiet(send.s, t, regs.r1, recv, rest);
      QuietJoin(s, send.ev, send.s, rest.ev, rest.s);
    } else {
      FlagQuiet(s, send.ev, send.s, t, r.s);
    }
  }

  // ---------- When a phase fails ----------

  predicate IsStart(tag: Tag) {
    tag == Tag(2, 0, 0, 0)
  }

  /** A send phase fails exactly if no thread has the number, or the partner that is ready for it, be it waiting or,
      unless this is its start message, for its pager, has no room for the message. */
  lemma {:induction false} SendFailsIff(s: State, t: nat, to: Word, timeout: Time)
    requires IsThread(s, t) && IsTime(timeout) && IpcSend(s, t, to, timeout).Phase?
    ensures IpcSend(s, t, to, timeout).phase == PhaseError <==>
      to != NILTHREAD &&
      match FindPartner(s, t, to, true)
      case Nonexistent => true
      case Found(p) => TooBig(s, t, p)
      case PagerMsg(p) => !IsStart(s.utcbs[t].tag) && TooBig(s, t, p)
      case NotReady => false
  {
    if to != NILTHREAD {
      match FindPartner(s, t, to, true)
      case Found(p) => FailedCopyOverflows(s, t, p);
      case PagerMsg(p) => PagerFailsIff(s, t, to, p);
      case NotReady => NoTimeoutRefuses(s, t, timeout, SendBlocked);
      case Nonexistent =>
    }
  }

  lemma {:induction false} PagerFailsIff(s: State, t: nat, to: Word, p: nat)
    requires IsThread(s, t) && IsThread(s, p) && SendAsPager(s, t, to, p).Phase?
    ensures SendAsPager(s, t, to, p).phase == PhaseError <==> !IsStart(s.utcbs[t].tag) && TooBig(s, t, p)
    ensures SendAsPager(s, t, to, p).phase != PhaseWait
  {
    if !IsStart(s.utcbs[t].tag) {
      FailedCopyOverflows(s, t, p);
    }
  }

  /** A receive phase fails exactly if no thread has the number, or the message of the sender that is ready does not
      fit. */
  lemma {:induction false} RecvFailsIff(s: State, t: nat, from: Word, timeout: Time, visited: set<nat>)
    requires Chain(s, t, visited) && IsTime(timeout) && IpcRecv(s, t, from, timeout, visited).Phase?
    ensures IpcRecv(s, t, from, timeout, visited).phase == PhaseError <==>
      from != NILTHREAD &&
      match FindPartner(s, t, from, false)
      case Nonexistent => true
      case Found(p) => TooBig(s, p, t)
      case _ => false
  {
    if from != NILTHREAD {
      match FindPartner(s, t, from, false)
      case Found(p) =>
        FailedCopyOverflows(s, p, t);
        if CopyPayload(s, p, t).code == NoError {
          ServedIs(s, t, from, timeout, visited, p, CopyPayload(s, p, t).s);
        }
      case NotReady => NoTimeoutRefuses(s, t, timeout, RecvBlocked);
      case Nonexistent =>
    }
  }

  // ---------- Timeouts ----------

  lemma {:induction false} FlagKeepsRest(tag: Tag)
    ensures var tag' := WithErrorFlag(tag);
      Flagged(tag') && tag'.flags % 8 == tag.flags % 8 && tag'.u == tag.u && tag'.t == tag.t &&
      tag'.labelField == tag.labelField
  {
    assert (tag.flags + 8) / 8 == tag.flags / 8 + 1;
  }

  /** A timeout wakes a blocked thread up with the error bit set, the rest of its tag as it was, and an error word that
      names the phase it was in and the timeout; otherwise it does nothing. */
  lemma {:induction false} TimeoutAnswers(s: State, t: nat)
    requires IsThread(s, t)
    ensures var r := IpcTimeout(s, t);
      var blocked := s.states[t] == RecvBlocked || s.states[t] == SendBlocked;
      && r.Done? && SameThreadsAs(s, r.s) && (!blocked ==> r.s == s)
      && (forall w :: 0 <= w < |s.ids| && w != t ==> r.s.utcbs[w] == s.utcbs[w] && r.s.states[w] == s.states[w])
      && (blocked ==>
            var u, u' := s.utcbs[t], r.s.utcbs[t];
            && r.s.states[t] == Runnable && Flagged(u'.tag) && u'.tag.u == u.tag.u && u'.tag.t == u.tag.t
            && u'.tag.labelField == u.tag.labelField && u'.tag.flags % 8 == u.tag.flags % 8
            && u'.words == u.words && u'.sender == u.sender
            && u'.error == IpcFailure(s.states[t] == RecvBlocked, IpcError.Timeout))
  {
    FlagKeepsRest(s.utcbs[t].tag);
  }
}
