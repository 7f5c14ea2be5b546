/** What a failed phase leaves with its thread: the error bit of its tag, and an error word that names the phase and
    the cause. Other threads' tags and error words stay. */
module IpcErrors {
  import opened Ipc
  import opened IpcContents
  import opened IpcDelivery
  import opened IpcRendezvous
  import opened KernelState
  import opened L4Time
  import opened MessageCopy
  import opened Words

  /** The error indicator, bit 3 of a tag's flags. */
  predicate Flagged(tag: Tag) {
    tag.flags / 8 % 2 == 1
  }

  /** The message of f does not go into the registers and buffers of t. */
  predicate TooBig(s: State, f: nat, t: nat)
    requires IsThread(s, f) && IsThread(s, t)
  {
    CopyMessage(s.utcbs[f].tag, s.utcbs[f].words, s.utcbs[t].words, s.mem).Overflow?
  }

  /** A thread p that name stands for. */
  predicate StandsFor(s: State, name: Word, p: nat)
    requires IsThread(s, p)
  {
    name == ANYTHREAD || SameThreads(name, s.ids[p].globalId)
  }

  /** The message between w, in the phase given, and its partner p does not go into the receiver's registers. */
  predicate Overflowed(s: State, w: nat, receiving: bool, name: Word, p: nat)
    requires IsThread(s, w)
  {
    IsThread(s, p) && p != w && StandsFor(s, name, p) && if receiving then TooBig(s, p, w) else TooBig(s, w, p)
  }

  /** The error word of w for a failed phase with name: the phase, and as the cause that the number is absent just when
      it is, or else that the message with one of the parties did not go into its receiver. */
  ghost predicate Blames(s: State, w: nat, receiving: bool, name: Word, parties: set<nat>, e: ErrorWord)
    requires IsThread(s, w)
  {
    if name != ANYTHREAD && Lookup(s.ids, name).None? then e == IpcFailure(receiving, NonexistentPartner)
    else
      e == IpcFailure(receiving, MessageOverflow) &&
      exists p: nat :: p in parties && Overflowed(s, w, receiving, name, p)
  }

  /** Seen from an earlier state, in which w and the parties had the same UTCBs. */
  lemma {:induction false} BlamesBefore(s: State, s1: State, w: nat, receiving: bool, name: Word, parties: set<nat>,
      parties0: set<nat>, e: ErrorWord)
    requires SameThreadsAs(s, s1) && IsThread(s, w) && s1.utcbs[w] == s.utcbs[w] && parties <= parties0
    requires forall p :: p in parties && IsThread(s, p) ==> s1.utcbs[p] == s.utcbs[p]
    requires Blames(s1, w, receiving, name, parties, e)
    ensures Blames(s, w, receiving, name, parties0, e)
  {
    if name == ANYTHREAD || Lookup(s.ids, name).Some? {
      var p: nat :| p in parties && Overflowed(s1, w, receiving, name, p);
      if receiving {
        MessageIgnoresMemory(s.utcbs[p].tag, s.utcbs[p].words, s.utcbs[w].words, s.mem, s1.mem);
      } else {
        MessageIgnoresMemory(s.utcbs[w].tag, s.utcbs[w].words, s.utcbs[p].words, s.mem, s1.mem);
      }
      assert p in parties0 && Overflowed(s, w, receiving, name, p);
    }
  }

  // ---------- The receive phase and the chain it sets off ----------

  /** The threads between which the receive phase of t may move messages. */
  ghost function Parties(s: State, t: nat, visited: set<nat>): set<nat> {
    set p | 0 <= p < |s.ids| && p !in visited && (p == t || s.states[p] == SendBlocked)
  }

  /** A failed end in the receive phase of t; t's own tag is flagged only when its call ends. */
  ghost predicate Answered(s: State, t: nat, visited: set<nat>, e: Event, s2: State, over: bool)
    requires SameThreadsAs(s, s2)
  {
    match e
    case SendEnd(w, false) =>
      && IsThread(s, w) && w != t && w in Parties(s, t, visited) && Flagged(s2.utcbs[w].tag)
      && Blames(s, w, false, s.peers[w], Parties(s, t, visited), s2.utcbs[w].error)
    case RecvEnd(w, false) =>
      && IsThread(s, w) && w in Parties(s, t, visited) && (w != t || over ==> Flagged(s2.utcbs[w].tag))
      && Blames(s, w, true, s.regs[w].r1, Parties(s, t, visited), s2.utcbs[w].error)
    case _ => true
  }

  ghost predicate AllAnswered(s: State, t: nat, visited: set<nat>, ev: seq<Event>, s2: State, over: bool)
    requires SameThreadsAs(s, s2)
  {
    forall i :: 0 <= i < |ev| ==> Answered(s, t, visited, ev[i], s2, over)
  }

  ghost predicate RecvAnswered(s: State, t: nat, visited: set<nat>, r: PhaseOutcome)
    requires r.Phase? ==> SameThreadsAs(s, r.s)
  {
    r.Phase? ==>
      AllAnswered(s, t, visited, r.ev, r.s, false) &&
      (r.phase != PhaseError ==> forall i :: 0 <= i < |r.ev| ==> r.ev[i] != RecvEnd(t, false))
  }

  /** What is answered to the chain of the served sender p, as the receive phase of t sees it. */
  lemma {:induction false} ServedAnswered(s: State, t: nat, p: nat, visited: set<nat>, s1: State, e: Event, s2: State)
    requires IsThread(s, t) && IsThread(s, p) && p != t && p !in visited && t !in visited && s.states[p] == SendBlocked
    requires CopyPayload(s, p, t) == Payload(s1, NoError) && SameThreadsAs(s1, s2)
    requires Answered(s1, p, visited + {t}, e, s2, true)
    ensures SameThreadsAs(s, s2) && Answered(s, t, visited, e, s2, false) && e != RecvEnd(t, false)
  {
    CopyDelivers(s, p, t);
    var below, all := Parties(s1, p, visited + {t}), Parties(s, t, visited);
    assert below <= all && t !in below;
    match e
    case SendEnd(w, false) => BlamesBefore(s, s1, w, false, s.peers[w], below, all, s2.utcbs[w].error);
    case RecvEnd(w, false) => BlamesBefore(s, s1, w, true, s.regs[w].r1, below, all, s2.utcbs[w].error);
    case _ =>
  }

  /** What both sides of a copy that failed are told. */
  lemma {:induction false} BothReported(s: State, sender: nat, receiver: nat, code: IpcError)
    requires IsThread(s, sender) && IsThread(s, receiver) && sender != receiver
    ensures var r := ReportBoth(s, sender, receiver, code);
      && r.utcbs[sender].error == IpcFailure(false, code) && Flagged(r.utcbs[sender].tag)
      && r.utcbs[receiver].error == IpcFailure(true, code) && Flagged(r.utcbs[receiver].tag)
  {
  }

  lemma {:induction false} FailedCopyOverflows(s: State, f: nat, t: nat)
    requires IsThread(s, f) && IsThread(s, t) && CopyPayload(s, f, t).Payload?
    ensures CopyPayload(s, f, t).code == if TooBig(s, f, t) then MessageOverflow else NoError
  {
  }

  lemma {:induction false} OverflowBlames(s: State, t: nat, from: Word, p: nat, parties: set<nat>)
    requires IsThread(s, t) && IsThread(s, p) && p != t && p in parties && t in parties && TooBig(s, p, t)
    requires StandsFor(s, from, p) && s.peers[p] == s.ids[t].globalId
    ensures Blames(s, t, true, from, parties, IpcFailure(true, MessageOverflow))
    ensures Blames(s, p, false, s.peers[p], parties, IpcFailure(false, MessageOverflow))
  {
    assert Overflowed(s, t, true, from, p) && Overflowed(s, p, false, s.peers[p], t);
  }

  lemma {:induction false} OverflowOutcome(s: State, t: nat, from: Word, p: nat)
    requires IsThread(s, t) && IsThread(s, p) && p != t && CopyPayload(s, p, t).Payload? &&
      CopyPayload(s, p, t).code != NoError
    ensures TooBig(s, p, t)
    ensures var r := RecvOverflow(CopyPayload(s, p, t).s, t, from, p);
      r.phase == PhaseError && SameThreadsAs(s, r.s) &&
      r.ev == [RecvBegin(t, from), SendEnd(p, false), RecvEnd(t, false)] &&
      r.s.utcbs[p].error == IpcFailure(false, MessageOverflow) && Flagged(r.s.utcbs[p].tag) &&
      r.s.utcbs[t].error == IpcFailure(true, MessageOverflow)
  {
    FailedCopyOverflows(s, p, t);
    BothReported(CopyPayload(s, p, t).s, p, t, MessageOverflow);
  }

  lemma {:induction false} OverflowAnswered(s: State, t: nat, from: Word, p: nat, visited: set<nat>)
    requires Chain(s, t, visited) && from == s.regs[t].r1 && RecvPeer(from) && from != NILTHREAD
    requires FindPartner(s, t, from, false) == Found(p)
    requires CopyPayload(s, p, t).Payload? && CopyPayload(s, p, t).code != NoError
    ensures RecvAnswered(s, t, visited, RecvOverflow(CopyPayload(s, p, t).s, t, from, p))
  {
    ChainGrows(s, t, visited, p);
    FoundIsNamed(s, t, from, false);
    OverflowOutcome(s, t, from, p);
    OverflowTold(s, t, from, p, visited, RecvOverflow(CopyPayload(s, p, t).s, t, from, p));
  }

  lemma {:induction false} OverflowTold(s: State, t: nat, from: Word, p: nat, visited: set<nat>, r: PhaseOutcome)
    requires IsThread(s, t) && IsThread(s, p) && p != t && t !in visited && p !in visited && s.states[p] == SendBlocked
    requires from == s.regs[t].r1 && StandsFor(s, from, p) && s.peers[p] == s.ids[t].globalId && TooBig(s, p, t)
    requires r.Phase? && r.phase == PhaseError && SameThreadsAs(s, r.s)
    requires r.ev == [RecvBegin(t, from), SendEnd(p, false), RecvEnd(t, false)]
    requires r.s.utcbs[p].error == IpcFailure(false, MessageOverflow) && Flagged(r.s.utcbs[p].tag)
    requires r.s.utcbs[t].error == IpcFailure(true, MessageOverflow)
    ensures RecvAnswered(s, t, visited, r)
  {
    OverflowBlames(s, t, from, p, Parties(s, t, visited));
  }

  lemma {:induction false} RecvAnswers(s: State, t: nat, from: Word, timeout: Time, visited: set<nat>)
    requires Chain(s, t, visited) && IsTime(timeout) && from == s.regs[t].r1
    ensures RecvAnswered(s, t, visited, IpcRecv(s, t, from, timeout, visited))
    decreases Remaining(s, visited), 1
  {
    if from != NILTHREAD && RecvPeer(from) {
      match FindPartner(s, t, from, false)
      case Found(p) =>
        ChainGrows(s, t, visited, p);
        var c := CopyPayload(s, p, t);
        if c.Payload? && c.code == NoError {
          FoundAnswers(s, t, from, timeout, visited, p, c.s);
        } else if c.Payload? {
          OverflowAnswered(s, t, from, p, visited);
        }
      case Nonexistent =>
      case NotReady => NoTimeoutRefuses(s, t, timeout, RecvBlocked);
    }
  }

  lemma {:induction false} ServingAnswered(s: State, t: nat, from: Word, visited: set<nat>, p: nat, ev: seq<Event>,
      s2: State)
    requires SameThreadsAs(s, s2) && AllAnswered(s, t, visited, ev, s2, false)
    requires forall i :: 0 <= i < |ev| ==> ev[i] != RecvEnd(t, false)
    ensures RecvAnswered(s, t, visited,
      Phase(PhaseDone, s2, [RecvBegin(t, from), Event.Copied(p, t), SendEnd(p, true)] + ev))
  {
    var first := [RecvBegin(t, from), Event.Copied(p, t), SendEnd(p, true)];
    forall i | 0 <= i < |first + ev|
      ensures Answered(s, t, visited, (first + ev)[i], s2, false) && (first + ev)[i] != RecvEnd(t, false)
    {
      if i >= 3 {
        assert (first + ev)[i] == ev[i - 3];
      }
    }
  }

  /** The ready sender p, whose message t takes. */
  lemma {:induction false} FoundAnswers(s: State, t: nat, from: Word, timeout: Time, visited: set<nat>, p: nat,
      s1: State)
    requires Chain(s, t, visited) && IsTime(timeout) && from != NILTHREAD && RecvPeer(from)
    requires FindPartner(s, t, from, false) == Found(p) && CopyPayload(s, p, t) == Payload(s1, NoError)
    ensures RecvAnswered(s, t, visited, IpcRecv(s, t, from, timeout, visited))
    decreases Remaining(s, visited), 0
  {
    ChainGrows(s, t, visited, p);
    ServedIs(s, t, from, timeout, visited, p, s1);
    var d := DoIpc(s1, p, true, visited + {t});
    if d.Done? {
      ServedCallAnswers(s1, p, visited + {t});
      forall i | 0 <= i < |d.ev|
        ensures Answered(s, t, visited, d.ev[i], d.s, false) && d.ev[i] != RecvEnd(t, false)
      {
        ServedAnswered(s, t, p, visited, s1, d.ev[i], d.s);
      }
      ServingAnswered(s, t, from, visited, p, d.ev, d.s);
    }
  }

  /** The receive phase that a served sender goes on with. */
  lemma {:induction false} ServedCallAnswers(s: State, t: nat, visited: set<nat>)
    requires Chain(s, t, visited) && DoIpc(s, t, true, visited).Done?
    ensures var r := DoIpc(s, t, true, visited); AllAnswered(s, t, visited, r.ev, r.s, true)
    decreases Remaining(s, visited), 2
  {
    var from := s.regs[t].r1;
    var recv := IpcRecv(s, t, from, RecvTimeout(s.regs[t].r2), visited);
    RecvAnswers(s, t, from, RecvTimeout(s.regs[t].r2), visited);
    var r := DoIpc(s, t, true, visited);
    EndAnswered(s, t, visited, from, [], recv, r);
  }

  /** The end of do_ipc flags the tag of a failed receive. */
  lemma {:induction false} EndAnswered(s: State, t: nat, visited: set<nat>, from: Word, sendEv: seq<Event>,
      recv: PhaseOutcome, r: Outcome)
    requires IsThread(s, t) && recv.Phase? && SameThreadsAs(s, recv.s) && r == AfterRecv(t, from, sendEv, recv)
    requires RecvAnswered(s, t, visited, recv)
    ensures r.Done? && SameThreadsAs(s, r.s)
    ensures forall i :: |sendEv| <= i < |r.ev| ==> Answered(s, t, visited, r.ev[i], r.s, true)
  {
    forall i | |sendEv| <= i < |r.ev|
      ensures Answered(s, t, visited, r.ev[i], r.s, true)
    {
      if i < |sendEv| + |recv.ev| {
        assert r.ev[i] == recv.ev[i - |sendEv|];
        assert Answered(s, t, visited, recv.ev[i - |sendEv|], recv.s, false);
      }
    }
  }

  // ---------- The whole call ----------

  /** The name that w gave in its phase: the caller's registers, what a blocked thread waits for, or what a sender that
      is served goes on to receive from. */
  function PhaseName(s: State, t: nat, w: nat, receiving: bool): Word
    requires IsThread(s, t) && IsThread(s, w)
  {
    if w == t then if receiving then s.regs[t].r1 else s.regs[t].r0
    else if receiving && s.states[w] == SendBlocked then s.regs[w].r1
    else s.peers[w]
  }

  ghost function Threads(s: State): set<nat> {
    set p | 0 <= p < |s.ids| && IsThread(s, p)
  }

  /** w is told that its phase failed. */
  ghost predicate Told(s: State, t: nat, w: nat, receiving: bool, u: Utcb)
    requires IsThread(s, t) && IsThread(s, w)
  {
    Flagged(u.tag) && Blames(s, w, receiving, PhaseName(s, t, w, receiving), Threads(s), u.error)
  }

  ghost predicate CallTells(s: State, t: nat, e: Event, s2: State)
    requires IsThread(s, t) && SameThreadsAs(s, s2)
  {
    match e
    case SendEnd(w, false) => IsThread(s, w) && Told(s, t, w, false, s2.utcbs[w])
    case RecvEnd(w, false) => IsThread(s, w) && Told(s, t, w, true, s2.utcbs[w])
    case _ => true
  }

  /** The send phase of t, failed, once do_ipc has flagged it. */
  ghost predicate SendTells(s: State, t: nat, r: PhaseOutcome)
    requires IsThread(s, t) && (r.Phase? ==> SameThreadsAs(s, r.s))
  {
    r.Phase? ==>
      forall i :: 0 <= i < |r.ev| ==>
        if r.phase == PhaseError then CallTells(s, t, r.ev[i], SetState(FlagError(r.s, t), t, Runnable))
        else !IsFailure(r.ev[i])
  }

  predicate IsFailure(e: Event) {
    (e.SendEnd? || e.RecvEnd?) && !e.ok
  }

  lemma {:induction false} PartnerBlames(s: State, t: nat, to: Word, p: nat)
    requires IsThread(s, t) && IsThread(s, p) && p != t && TooBig(s, t, p) && StandsFor(s, to, p)
    requires s.peers[p] == s.ids[t].globalId || s.peers[p] == ANYTHREAD
    ensures Blames(s, t, false, to, Threads(s), IpcFailure(false, MessageOverflow))
    ensures Blames(s, p, true, s.peers[p], Threads(s), IpcFailure(true, MessageOverflow))
  {
    assert Overflowed(s, t, false, to, p) && Overflowed(s, p, true, s.peers[p], t);
    assert p in Threads(s) && t in Threads(s);
  }

  /** The copy to the waiting partner failed. */
  lemma {:induction false} PairTold(s: State, t: nat, to: Word, p: nat, s2: State)
    requires IsThread(s, t) && IsThread(s, p) && p != t && SameThreadsAs(s, s2) && to == s.regs[t].r0 && TooBig(s, t, p)
    requires StandsFor(s, to, p) && s.states[p] == RecvBlocked
    requires s.peers[p] == s.ids[t].globalId || s.peers[p] == ANYTHREAD
    requires s2.utcbs[t].error == IpcFailure(false, MessageOverflow) && Flagged(s2.utcbs[t].tag)
    requires s2.utcbs[p].error == IpcFailure(true, MessageOverflow) && Flagged(s2.utcbs[p].tag)
    ensures CallTells(s, t, SendEnd(t, false), s2) && CallTells(s, t, RecvEnd(p, false), s2)
  {
    PartnerBlames(s, t, to, p);
  }

  lemma {:induction false} PairOutcome(s: State, t: nat, to: Word, p: nat)
    requires IsThread(s, t) && IsThread(s, p) && p != t && CopyPayload(s, t, p).Payload? &&
      CopyPayload(s, t, p).code != NoError
    ensures TooBig(s, t, p)
    ensures var r := SendToPartner(s, t, to, p);
      var s2 := SetState(FlagError(r.s, t), t, Runnable);
      r.phase == PhaseError && r.ev == [SendBegin(t, to), RecvEnd(p, false), SendEnd(t, false)] &&
        SameThreadsAs(s, s2) &&
      s2.utcbs[t].error == IpcFailure(false, MessageOverflow) && Flagged(s2.utcbs[t].tag) &&
      s2.utcbs[p].error == IpcFailure(true, MessageOverflow) && Flagged(s2.utcbs[p].tag)
  {
    FailedCopyOverflows(s, t, p);
    BothReported(CopyPayload(s, t, p).s, t, p, MessageOverflow);
  }

  lemma {:induction false} PairServed(s: State, t: nat, to: Word, p: nat)
    requires IsThread(s, t) && IsThread(s, p) && CopyPayload(s, t, p).Payload? && CopyPayload(s, t, p).code == NoError
    ensures var r := SendToPartner(s, t, to, p);
      r.phase == PhaseDone && r.ev == [SendBegin(t, to), Event.Copied(t, p), RecvEnd(p, true), SendEnd(t, true)]
  {
  }

  lemma {:induction false} FailedPairTells(s: State, t: nat, to: Word, p: nat, r: PhaseOutcome)
    requires IsThread(s, t) && r.Phase? && r.phase == PhaseError && SameThreadsAs(s, r.s)
    requires r.ev == [SendBegin(t, to), RecvEnd(p, false), SendEnd(t, false)]
    requires var s2 := SetState(FlagError(r.s, t), t, Runnable);
      CallTells(s, t, SendEnd(t, false), s2) && CallTells(s, t, RecvEnd(p, false), s2)
    ensures SendTells(s, t, r)
  {
  }

  lemma {:induction false} ServedPairTells(s: State, t: nat, to: Word, p: nat, r: PhaseOutcome)
    requires IsThread(s, t) && r.Phase? && r.phase == PhaseDone && SameThreadsAs(s, r.s)
    requires r.ev == [SendBegin(t, to), Event.Copied(t, p), RecvEnd(p, true), SendEnd(t, true)]
    ensures SendTells(s, t, r)
  {
  }

  lemma {:induction false} SendPartnerTells(s: State, t: nat, to: Word, p: nat)
    requires IpcInv(s) && IsThread(s, t) && to == s.regs[t].r0 && s.states[t] != RecvBlocked && to != NILTHREAD
    requires FindPartner(s, t, to, true) == Found(p)
    ensures SendTells(s, t, SendToPartner(s, t, to, p))
  {
    FoundIsNamed(s, t, to, true);
    PartnerNamesTarget(s, t, true, p);
    var c := CopyPayload(s, t, p);
    if c.Payload? && c.code != NoError {
      PairOutcome(s, t, to, p);
      PairTold(s, t, to, p, SetState(FlagError(SendToPartner(s, t, to, p).s, t), t, Runnable));
      FailedPairTells(s, t, to, p, SendToPartner(s, t, to, p));
    } else if c.Payload? {
      PairServed(s, t, to, p);
      ServedPairTells(s, t, to, p, SendToPartner(s, t, to, p));
    }
  }

  lemma {:induction false} PagerOutcome(s: State, t: nat, to: Word, p: nat)
    requires IsThread(s, t) && IsThread(s, p) && p != t && SendAsPager(s, t, to, p).Phase?
    requires SendAsPager(s, t, to, p).phase != PhaseDone
    ensures TooBig(s, t, p)
    ensures var r := SendAsPager(s, t, to, p);
      var s2 := SetState(FlagError(r.s, t), t, Runnable);
      r.phase == PhaseError && r.ev == [SendBegin(t, to), SendEnd(t, false)] && SameThreadsAs(s, s2) &&
      s2.utcbs[t].error == IpcFailure(false, MessageOverflow) && Flagged(s2.utcbs[t].tag)
  {
    FailedCopyOverflows(s, t, p);
  }

  lemma {:induction false} SendPagerTells(s: State, t: nat, to: Word, p: nat)
    requires IsThread(s, t) && to == s.regs[t].r0 && s.states[t] != Active && to != NILTHREAD
    requires FindPartner(s, t, to, true) == PagerMsg(p)
    ensures SendTells(s, t, SendAsPager(s, t, to, p))
  {
    FoundIsNamed(s, t, to, true);
    var r := SendAsPager(s, t, to, p);
    if r.Phase? && r.phase != PhaseDone {
      PagerOutcome(s, t, to, p);
      assert Overflowed(s, t, false, to, p) && p in Threads(s);
    }
  }

  lemma {:induction false} NobodyTells(s: State, t: nat, to: Word)
    requires IsThread(s, t) && to == s.regs[t].r0 && to != ANYTHREAD && Lookup(s.ids, to).None?
    ensures SendTells(s, t, Phase(PhaseError, SetError(s, t, IpcFailure(false, NonexistentPartner)),
                                  [SendBegin(t, to), SendEnd(t, false)]))
  {
  }

  lemma {:induction false} LaterTells(s: State, t: nat, to: Word, timeout: Time)
    requires IsThread(s, t) && IsTime(timeout)
    ensures SendTells(s, t, SendLater(s, t, to, timeout))
  {
    NoTimeoutRefuses(s, t, timeout, SendBlocked);
  }

  lemma {:induction false} SendAnswers(s: State, t: nat, to: Word, timeout: Time)
    requires IpcInv(s) && IsThread(s, t) && IsTime(timeout) && to == s.regs[t].r0
    requires s.states[t] != RecvBlocked && s.states[t] != Active
    ensures SendTells(s, t, IpcSend(s, t, to, timeout))
  {
    if to != NILTHREAD && SendPeer(to) {
      match FindPartner(s, t, to, true)
      case Found(p) => SendPartnerTells(s, t, to, p);
      case PagerMsg(p) => SendPagerTells(s, t, to, p);
      case NotReady => LaterTells(s, t, to, timeout);
      case Nonexistent => NobodyTells(s, t, to);
    }
  }

  /** What the receive phase after a send phase that is done tells, seen from before both. */
  lemma {:induction false} ReceiveTells(s: State, t: nat, send: PhaseOutcome, e: Event, s2: State)
    requires IsThread(s, t) && send.Phase? && send.phase == PhaseDone && SameThreadsAs(s, send.s) && SendsTo(s, t, send)
    requires NoNewSenders(s, send.s) && SameThreadsAs(send.s, s2) && Answered(send.s, t, {}, e, s2, true)
    ensures SameThreadsAs(s, s2) && CallTells(s, t, e, s2)
  {
    var parties := Parties(send.s, t, {});
    assert parties <= Threads(s);
    forall w | w in parties
      ensures send.s.utcbs[w] == s.utcbs[w] && send.s.regs[w] == s.regs[w]
    {
      if p: nat :| IsThread(s, p) && SendsToOne(s, t, p, send) {
        assert w != p;
      }
    }
    match e
    case SendEnd(w, false) => BlamesBefore(s, send.s, w, false, s.peers[w], parties, Threads(s), s2.utcbs[w].error);
    case RecvEnd(w, false) => BlamesBefore(s, send.s, w, true, s.regs[w].r1, parties, Threads(s), s2.utcbs[w].error);
    case _ =>
  }

  /** Every phase that a call ends without success, the caller's, its partner's or one along the recursion, is answered:
      when the call ends the thread's tag has the error bit, and its error word names the phase and the cause, which is
      a missing partner exactly if no thread has the number, and otherwise a message that did not fit. */
  lemma {:induction false} CallAnswers(s: State, t: nat, i: nat)
    requires IpcInv(s) && Chain(s, t, {}) && s.states[t] != RecvBlocked && s.states[t] != SendBlocked &&
      s.states[t] != Active
    requires DoIpc(s, t, false, {}).Done? && i < |DoIpc(s, t, false, {}).ev|
    ensures CallTells(s, t, DoIpc(s, t, false, {}).ev[i], DoIpc(s, t, false, {}).s)
  {
    var regs, r := s.regs[t], DoIpc(s, t, false, {});
    var send := IpcSend(s, t, regs.r0, SendTimeout(regs.r2));
    SendAnswers(s, t, regs.r0, SendTimeout(regs.r2));
    if send.phase == PhaseDone {
      SendDelivers(s, t, regs.r0, SendTimeout(regs.r2));
      ChainKept(s, send.s, t, {});
      SendKeepsRegs(s, t, regs.r0, SendTimeout(regs.r2));
      var recv := IpcRecv(send.s, t, regs.r1, RecvTimeout(regs.r2), {});
      RecvAnswers(send.s, t, regs.r1, RecvTimeout(regs.r2), {});
      EndAnswered(send.s, t, {}, regs.r1, send.ev, recv, r);
      if i < |send.ev| {
        assert r.ev[i] == send.ev[i];
      } else {
        ReceiveTells(s, t, send, r.ev[i], r.s);
      }
    }
  }
}
