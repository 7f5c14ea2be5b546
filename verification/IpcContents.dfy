/** What a delivered message is: when a call ends, with its whole recursion, every thread that was given a message
    still holds what copy_payload made of the sender's UTCB as it was when the call began. */
module IpcContents {
  import opened Ipc
  import opened KernelState
  import opened L4Time
  import opened MessageCopy
  import opened Words

  // ---------- Copies and the memory ----------

  /** What is copied between the registers does not depend on what the memory holds. */
  lemma {:induction false} ItemsIgnoreMemory(from: seq<Word>, to: seq<Word>, mem: seq<Byte>, mem': seq<Byte>,
      accepts: bool, o: nat, br: nat, end: nat)
    requires |from| == |to| == UTCB_WORDS && end <= MR_COUNT + 1 && |mem| == |mem'|
    ensures var r, r' := CopyItems(from, to, mem, accepts, o, br, end), CopyItems(from, to, mem', accepts, o, br, end);
      (r.ItemsDone? <==> r'.ItemsDone?) && (r.ItemsOverflow? <==> r'.ItemsOverflow?) &&
      (r.ItemsDone? ==> r'.words == r.words && r'.offset == r.offset)
    decreases end + 2 - o
  {
    if o < end {
      var r, r' := CopyItem(from, to, mem, accepts, o, br), CopyItem(from, to, mem', accepts, o, br);
      if r.ItemsDone? {
        ItemsIgnoreMemory(from, r.words, r.mem, r'.mem, accepts, o + 2, NextBuffer(from[o], br), end);
      }
    }
  }

  lemma {:induction false} MessageIgnoresMemory(tag: Tag, from: seq<Word>, to: seq<Word>, mem: seq<Byte>,
      mem': seq<Byte>)
    requires |from| == |to| == UTCB_WORDS && |mem| == |mem'|
    ensures var r, r' := CopyMessage(tag, from, to, mem), CopyMessage(tag, from, to, mem');
      (r.Copied? <==> r'.Copied?) && (r.Overflow? <==> r'.Overflow?) &&
      (r.Copied? ==> r'.tag == r.tag && r'.words == r.words)
  {
    if tag.u + tag.t <= MR_COUNT {
      var to1 := UntypedCopied(from, to, tag.u);
      ItemsIgnoreMemory(from, to1, mem, mem', AcceptsStrings(to1), tag.u + 1, 1, tag.u + tag.t + 1);
    }
  }

  // ---------- Deliveries ----------

  /** u is the UTCB of t after the message that f's UTCB holds in s. */
  predicate Delivered(s: State, f: nat, t: nat, u: Utcb)
    requires IsThread(s, f) && IsThread(s, t)
  {
    var c := CopyMessage(s.utcbs[f].tag, s.utcbs[f].words, s.utcbs[t].words, s.mem);
    c.Copied? && u.tag == c.tag && u.words == c.words && u.sender == s.ids[f].globalId && u.error == s.utcbs[t].error
  }

  /** The id by which a receiver is told of the sender: its local id within one address space. */
  function SenderShown(s: State, f: nat, t: nat): Word
    requires IsThread(s, f) && IsThread(s, t)
  {
    if s.ids[t].space == s.ids[f].space then s.ids[f].localId else s.ids[f].globalId
  }

  lemma {:induction false} CopyDelivers(s: State, f: nat, t: nat)
    requires IsThread(s, f) && IsThread(s, t) && CopyPayload(s, f, t).Payload? && CopyPayload(s, f, t).code == NoError
    ensures var s1 := CopyPayload(s, f, t).s;
      Delivered(s, f, t, s1.utcbs[t]) && s1.regs[t].r0 == SenderShown(s, f, t) &&
      forall w :: 0 <= w < |s.ids| && w != t ==> s1.utcbs[w] == s.utcbs[w] && s1.regs[w] == s.regs[w]
  {
  }

  /** A delivery seen from an earlier state with the same two UTCBs. */
  lemma {:induction false} DeliveredBefore(s: State, s1: State, f: nat, t: nat, u: Utcb)
    requires SameThreadsAs(s, s1) && IsThread(s, f) && IsThread(s, t)
    requires s1.utcbs[f] == s.utcbs[f] && s1.utcbs[t] == s.utcbs[t] && Delivered(s1, f, t, u)
    ensures Delivered(s, f, t, u)
  {
    MessageIgnoresMemory(s.utcbs[f].tag, s.utcbs[f].words, s.utcbs[t].words, s.mem, s1.mem);
  }

  predicate IsCopy(e: Event) {
    e.Copied? || e.PagerCopied?
  }

  /** A message of the receive phase of t goes from a thread that was send-blocked, to t or to one that was, neither
      of them being further up the recursion; and s2 holds it. */
  ghost predicate Arrives(s: State, t: nat, visited: set<nat>, e: Event, s2: State)
    requires SameThreadsAs(s, s2)
  {
    !e.PagerCopied? &&
    (e.Copied? ==>
      && IsThread(s, e.from) && IsThread(s, e.to) && e.from !in visited && e.to !in visited
      && s.states[e.from] == SendBlocked && (e.to == t || s.states[e.to] == SendBlocked)
      && Delivered(s, e.from, e.to, s2.utcbs[e.to]) && s2.regs[e.to].r0 == SenderShown(s, e.from, e.to))
  }

  ghost predicate AllArrive(s: State, t: nat, visited: set<nat>, ev: seq<Event>, s2: State)
    requires SameThreadsAs(s, s2)
  {
    forall i :: 0 <= i < |ev| ==> Arrives(s, t, visited, ev[i], s2)
  }

  /** Besides t's only UTCBs and registers of threads that were send-blocked, and not further up the recursion, were
      written. */
  ghost predicate OthersKept(s: State, t: nat, visited: set<nat>, s2: State)
    requires SameThreadsAs(s, s2)
  {
    forall w :: 0 <= w < |s.ids| && w != t && (w in visited || s.states[w] != SendBlocked) ==>
      s2.utcbs[w] == s.utcbs[w] && s2.regs[w] == s.regs[w]
  }

  ghost predicate NoCopies(ev: seq<Event>) {
    forall i :: 0 <= i < |ev| ==> !IsCopy(ev[i])
  }

  /** What the receive phase of the served sender p did, as the receive phase of t sees it. */
  lemma {:induction false} ServedArrive(s: State, t: nat, p: nat, visited: set<nat>, s1: State, ev: seq<Event>,
      s2: State)
    requires IsThread(s, t) && IsThread(s, p) && p != t && p !in visited && t !in visited && s.states[p] == SendBlocked
    requires CopyPayload(s, p, t) == Payload(s1, NoError) && SameThreadsAs(s1, s2)
    requires AllArrive(s1, p, visited + {t}, ev, s2) && OthersKept(s1, p, visited + {t}, s2)
    ensures SameThreadsAs(s, s2) && OthersKept(s, t, visited, s2)
    ensures AllArrive(s, t, visited, ev, s2) && Arrives(s, t, visited, Event.Copied(p, t), s2)
  {
    CopyDelivers(s, p, t);
    assert s2.utcbs[t] == s1.utcbs[t] && s2.regs[t] == s1.regs[t];
    forall i | 0 <= i < |ev|
      ensures Arrives(s, t, visited, ev[i], s2)
    {
      assert Arrives(s1, p, visited + {t}, ev[i], s2);
      if ev[i].Copied? {
        DeliveredBefore(s, s1, ev[i].from, ev[i].to, s2.utcbs[ev[i].to]);
      }
    }
  }

  ghost predicate RecvArrives(s: State, t: nat, visited: set<nat>, r: PhaseOutcome)
    requires r.Phase? ==> SameThreadsAs(s, r.s)
  {
    r.Phase? ==>
      AllArrive(s, t, visited, r.ev, r.s) && OthersKept(s, t, visited, r.s) && (r.phase != PhaseDone ==> NoCopies(r.ev))
  }

  lemma {:induction false} RecvDelivers(s: State, t: nat, from: Word, timeout: Time, visited: set<nat>)
    requires Chain(s, t, visited) && IsTime(timeout)
    ensures RecvArrives(s, t, visited, IpcRecv(s, t, from, timeout, visited))
    decreases Remaining(s, visited), 1
  {
    if from != NILTHREAD && RecvPeer(from) {
      match FindPartner(s, t, from, false)
      case Found(p) =>
        ChainGrows(s, t, visited, p);
        var c := CopyPayload(s, p, t);
        if c.Payload? && c.code == NoError {
          FoundDelivers(s, t, from, timeout, visited, p, c.s);
        } else if c.Payload? {
          OverflowKeeps(s, t, from, p, visited);
        }
      case Nonexistent =>
      case NotReady => LaterKeeps(s, t, from, timeout, visited);
    }
  }

  lemma {:induction false} ServingArrives(s: State, t: nat, from: Word, visited: set<nat>, p: nat, ev: seq<Event>,
      s2: State)
    requires SameThreadsAs(s, s2) && AllArrive(s, t, visited, ev, s2) && Arrives(s, t, visited, Event.Copied(p, t), s2)
    ensures AllArrive(s, t, visited, [RecvBegin(t, from), Event.Copied(p, t), SendEnd(p, true)] + ev, s2)
  {
    var first := [RecvBegin(t, from), Event.Copied(p, t), SendEnd(p, true)];
    forall i | 0 <= i < |first + ev|
      ensures Arrives(s, t, visited, (first + ev)[i], s2)
    {
      if i >= 3 {
        assert (first + ev)[i] == ev[i - 3];
      }
    }
  }

  /** The ready sender p, whose message t takes. */
  lemma {:induction false} FoundDelivers(s: State, t: nat, from: Word, timeout: Time, visited: set<nat>, p: nat,
      s1: State)
    requires Chain(s, t, visited) && IsTime(timeout) && from != NILTHREAD && RecvPeer(from)
    requires FindPartner(s, t, from, false) == Found(p) && CopyPayload(s, p, t) == Payload(s1, NoError)
    ensures RecvArrives(s, t, visited, IpcRecv(s, t, from, timeout, visited))
    decreases Remaining(s, visited), 0
  {
    ChainGrows(s, t, visited, p);
    ServedIs(s, t, from, timeout, visited, p, s1);
    var d := DoIpc(s1, p, true, visited + {t});
    if d.Done? {
      ServedDelivers(s1, p, visited + {t});
      ServedArrive(s, t, p, visited, s1, d.ev, d.s);
      ServingArrives(s, t, from, visited, p, d.ev, d.s);
    }
  }

  lemma {:induction false} OverflowKeeps(s: State, t: nat, from: Word, p: nat, visited: set<nat>)
    requires IsThread(s, t) && IsThread(s, p) && p !in visited && s.states[p] == SendBlocked &&
      CopyPayload(s, p, t).Payload?
    requires CopyPayload(s, p, t).code != NoError
    ensures var r := RecvOverflow(CopyPayload(s, p, t).s, t, from, p);
      SameThreadsAs(s, r.s) && RecvArrives(s, t, visited, r)
  {
  }

  lemma {:induction false} LaterKeeps(s: State, t: nat, from: Word, timeout: Time, visited: set<nat>)
    requires IsThread(s, t) && IsTime(timeout)
    ensures RecvArrives(s, t, visited, RecvLater(s, t, from, timeout))
  {
    NoTimeoutRefuses(s, t, timeout, RecvBlocked);
  }

  /** The receive phase that a served sender goes on with. */
  lemma {:induction false} ServedDelivers(s: State, t: nat, visited: set<nat>)
    requires Chain(s, t, visited) && DoIpc(s, t, true, visited).Done?
    ensures var r := DoIpc(s, t, true, visited);
      AllArrive(s, t, visited, r.ev, r.s) && OthersKept(s, t, visited, r.s)
    decreases Remaining(s, visited), 2
  {
    var from := s.regs[t].r1;
    var recv := IpcRecv(s, t, from, RecvTimeout(s.regs[t].r2), visited);
    RecvDelivers(s, t, from, RecvTimeout(s.regs[t].r2), visited);
    EndKeepsDeliveries(s, t, visited, [], recv, DoIpc(s, t, true, visited));
  }

  /** The end of do_ipc flags an error, if any, in a UTCB that was given nothing. */
  lemma {:induction false} EndKeepsDeliveries(s: State, t: nat, visited: set<nat>, sendEv: seq<Event>,
      recv: PhaseOutcome, r: Outcome)
    requires IsThread(s, t) && recv.Phase? && SameThreadsAs(s, recv.s) && r == AfterRecv(t, s.regs[t].r1, sendEv, recv)
    requires AllArrive(s, t, visited, recv.ev, recv.s) && OthersKept(s, t, visited, recv.s)
    requires recv.phase != PhaseDone ==> NoCopies(recv.ev)
    ensures r.Done? && SameThreadsAs(s, r.s) && OthersKept(s, t, visited, r.s)
    ensures forall i :: |sendEv| <= i < |r.ev| ==> Arrives(s, t, visited, r.ev[i], r.s)
  {
    forall i | |sendEv| <= i < |r.ev|
      ensures Arrives(s, t, visited, r.ev[i], r.s)
    {
      if i < |sendEv| + |recv.ev| {
        assert r.ev[i] == recv.ev[i - |sendEv|];
        assert Arrives(s, t, visited, recv.ev[i - |sendEv|], recv.s);
      }
    }
  }

  // ---------- The whole call ----------

  /** A send phase that is done copied at most to one thread, p, which is not send-blocked then; otherwise it copied
      nothing. */
  ghost predicate SendsTo(s: State, t: nat, r: PhaseOutcome)
    requires IsThread(s, t) && r.Phase? && SameThreadsAs(s, r.s)
  {
    ((forall i :: 0 <= i < |r.ev| ==> !IsCopy(r.ev[i])) &&
      (r.phase == PhaseDone ==> r.s.utcbs == s.utcbs && r.s.regs == s.regs))
    || (r.phase == PhaseDone && exists p: nat :: IsThread(s, p) && SendsToOne(s, t, p, r))
  }

  ghost predicate SendsToOne(s: State, t: nat, p: nat, r: PhaseOutcome)
    requires IsThread(s, t) && IsThread(s, p) && r.Phase? && SameThreadsAs(s, r.s)
  {
    && p != t && r.s.states[p] != SendBlocked && Delivered(s, t, p, r.s.utcbs[p])
    && r.s.regs[p].r0 == SenderShown(s, t, p)
    && (forall w :: 0 <= w < |s.ids| && w != p ==> r.s.utcbs[w] == s.utcbs[w] && r.s.regs[w] == s.regs[w])
    && (forall i :: 0 <= i < |r.ev| && IsCopy(r.ev[i]) ==> r.ev[i].from == t && r.ev[i].to == p)
  }

  lemma {:induction false} PartnerGetsIt(s: State, t: nat, to: Word, p: nat)
    requires IsThread(s, t) && IsThread(s, p) && p != t && SendToPartner(s, t, to, p).Phase?
    ensures SendsTo(s, t, SendToPartner(s, t, to, p))
  {
    var r := SendToPartner(s, t, to, p);
    if CopyPayload(s, t, p).code == NoError {
      CopyDelivers(s, t, p);
      assert SendsToOne(s, t, p, r);
    }
  }

  lemma {:induction false} PagedGetsIt(s: State, t: nat, to: Word, p: nat)
    requires IsThread(s, t) && IsThread(s, p) && p != t && s.states[p] == Active && SendAsPager(s, t, to, p).Phase?
    ensures SendsTo(s, t, SendAsPager(s, t, to, p))
  {
    var r := SendAsPager(s, t, to, p);
    if r.phase == PhaseDone && r.ev[1].PagerCopied? {
      CopyDelivers(s, t, p);
      assert SendsToOne(s, t, p, r);
    }
  }

  lemma {:induction false} SendDelivers(s: State, t: nat, to: Word, timeout: Time)
    requires IsThread(s, t) && IsTime(timeout) && s.states[t] != RecvBlocked && s.states[t] != Active
    requires IpcSend(s, t, to, timeout).Phase?
    ensures SendsTo(s, t, IpcSend(s, t, to, timeout))
  {
    if to != NILTHREAD {
      match FindPartner(s, t, to, true)
      case Found(p) => PartnerGetsIt(s, t, to, p);
      case PagerMsg(p) => PagedGetsIt(s, t, to, p);
      case NotReady => NoTimeoutRefuses(s, t, timeout, SendBlocked);
      case Nonexistent =>
    }
  }

  lemma {:induction false} SendKeepsRegs(s: State, t: nat, to: Word, timeout: Time)
    requires IsThread(s, t) && IsTime(timeout) && s.states[t] != RecvBlocked && s.states[t] != Active
    requires IpcSend(s, t, to, timeout).Phase?
    ensures IpcSend(s, t, to, timeout).s.regs[t] == s.regs[t]
  {
    if to != NILTHREAD {
      match FindPartner(s, t, to, true)
      case Found(p) => assert IpcSend(s, t, to, timeout) == SendToPartner(s, t, to, p);
      case PagerMsg(p) => assert IpcSend(s, t, to, timeout) == SendAsPager(s, t, to, p);
      case NotReady => assert IpcSend(s, t, to, timeout) == SendLater(s, t, to, timeout);
      case Nonexistent =>
    }
  }

  /** A message of either phase, after both. */
  lemma {:induction false} BothPhasesDeliver(s: State, t: nat, send: PhaseOutcome, r: Outcome, i: nat)
    requires IsThread(s, t) && send.Phase? && send.phase == PhaseDone && SameThreadsAs(s, send.s) && SendsTo(s, t, send)
    requires r.Done? && SameThreadsAs(send.s, r.s) && OthersKept(send.s, t, {}, r.s)
    requires |send.ev| <= |r.ev| && r.ev[..|send.ev|] == send.ev
    requires forall k :: |send.ev| <= k < |r.ev| ==> Arrives(send.s, t, {}, r.ev[k], r.s)
    requires i < |r.ev| && IsCopy(r.ev[i])
    ensures IsThread(s, r.ev[i].from) && IsThread(s, r.ev[i].to) &&
      Delivered(s, r.ev[i].from, r.ev[i].to, r.s.utcbs[r.ev[i].to]) &&
      r.s.regs[r.ev[i].to].r0 == SenderShown(s, r.ev[i].from, r.ev[i].to)
  {
    var e := r.ev[i];
    if i < |send.ev| {
      assert send.ev[i] == e;
      var p: nat :| IsThread(s, p) && SendsToOne(s, t, p, send);
    } else {
      assert Arrives(send.s, t, {}, e, r.s);
      DeliveredBefore(s, send.s, e.from, e.to, r.s.utcbs[e.to]);
    }
  }

  /** Every message of a call, the caller's own, as a pager's to a thread that has not started, or one along the
      recursion, is held by its receiver when the call ends as copy_payload made it from the sender's UTCB at the
      call's beginning, and the receiver's r0 names the sender. */
  lemma {:induction false} CallDelivers(s: State, t: nat, i: nat)
    requires Chain(s, t, {}) && s.states[t] != RecvBlocked && s.states[t] != Active
    requires DoIpc(s, t, false, {}).Done? && i < |DoIpc(s, t, false, {}).ev| && IsCopy(DoIpc(s, t, false, {}).ev[i])
    ensures var r := DoIpc(s, t, false, {});
      IsThread(s, r.ev[i].from) && IsThread(s, r.ev[i].to) &&
        Delivered(s, r.ev[i].from, r.ev[i].to, r.s.utcbs[r.ev[i].to]) &&
        r.s.regs[r.ev[i].to].r0 == SenderShown(s, r.ev[i].from, r.ev[i].to)
  {
    var regs := s.regs[t];
    var send := IpcSend(s, t, regs.r0, SendTimeout(regs.r2));
    SendDelivers(s, t, regs.r0, SendTimeout(regs.r2));
    if send.phase == PhaseDone {
      ChainKept(s, send.s, t, {});
      var recv := IpcRecv(send.s, t, send.s.regs[t].r1, RecvTimeout(regs.r2), {});
      var timeout := RecvTimeout(regs.r2);
      assert send.s.regs[t].r1 == regs.r1 by { SendKeepsRegs(s, t, regs.r0, SendTimeout(regs.r2)); }
      RecvDelivers(send.s, t, regs.r1, timeout, {});
      EndKeepsDeliveries(send.s, t, {}, send.ev, recv, DoIpc(s, t, false, {}));
      BothPhasesDeliver(s, t, send, DoIpc(s, t, false, {}), i);
    }
  }
}
