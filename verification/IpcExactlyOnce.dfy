/** What the accepted events add up to: messages are neither lost nor duplicated, and a call serves no
    thread twice. */
module IpcExactlyOnce {
  import opened Words
  import opened KernelState
  import opened Ipc
  import opened IpcDelivery
  import opened L4Time

  /** Kinds of events about one thread. A message that a pager sends to a thread that has not started
      counts as sent by the pager and as received by nobody. */
  datatype Kind = MessageFrom | MessageTo | SendBegun | SendOver | SendOk | RecvBegun | RecvOver | RecvOk

  predicate Is(e: Event, kind: Kind, w: nat) {
    match kind
    case MessageFrom => (e.Copied? || e.PagerCopied? || e.PagerStarted?) && e.from == w
    case MessageTo => e.Copied? && e.to == w
    case SendBegun => e.SendBegin? && e.who == w
    case SendOver => (e.SendEnd? || (e.CutShort? && !e.receiving)) && e.who == w
    case SendOk => e.SendEnd? && e.who == w && e.ok
    case RecvBegun => e.RecvBegin? && e.who == w
    case RecvOver => (e.RecvEnd? || (e.CutShort? && e.receiving)) && e.who == w
    case RecvOk => e.RecvEnd? && e.who == w && e.ok
  }

  function Count(ev: seq<Event>, kind: Kind, w: nat): nat {
    if ev == [] then 0 else (if Is(ev[0], kind, w) then 1 else 0) + Count(ev[1..], kind, w)
  }

  lemma {:induction false} CountConcat(a: seq<Event>, b: seq<Event>, kind: Kind, w: nat)
    ensures Count(a + b, kind, w) == Count(a, kind, w) + Count(b, kind, w)
    decreases |a|
  {
    if a == [] {
      assert a + b == b;
    } else {
      assert (a + b)[1..] == a[1..] + b;
      CountConcat(a[1..], b, kind, w);
    }
  }

  function One(b: bool): nat { if b then 1 else 0 }

  // ---------- Conservation ----------

  /** The books of thread w, from the roles m to the roles m': phases begun are over or still going
      on, and phases ended well, with one that has its message and goes on, are as many as messages. */
  predicate Balanced(ev: seq<Event>, m: Role, m': Role, w: nat) {
    && One(m.Sending?) + Count(ev, SendBegun, w) == Count(ev, SendOver, w) + One(m'.Sending?)
    && One(m.Receiving?) + Count(ev, RecvBegun, w) == Count(ev, RecvOver, w) + One(m'.Receiving?)
    && One(m.Sending? && m.delivered) + Count(ev, MessageFrom, w) ==
      Count(ev, SendOk, w) + One(m'.Sending? && m'.delivered)
    && One(m.Receiving? && m.got) + Count(ev, MessageTo, w) == Count(ev, RecvOk, w) + One(m'.Receiving? && m'.got)
  }

  /** The books of w for one accepted event. */
  lemma {:induction false} BalancedEvent(ids: seq<Ident>, m: seq<Role>, e: Event, m1: seq<Role>, w: nat)
    requires |m| == |ids| && w < |m| && Observe(ids, m, e) == Some(m1)
    ensures One(m[w].Sending?) + One(Is(e, SendBegun, w)) == One(Is(e, SendOver, w)) + One(m1[w].Sending?)
    ensures One(m[w].Receiving?) + One(Is(e, RecvBegun, w)) == One(Is(e, RecvOver, w)) + One(m1[w].Receiving?)
    ensures One(m[w].Sending? && m[w].delivered) + One(Is(e, MessageFrom, w)) ==
      One(Is(e, SendOk, w)) + One(m1[w].Sending? && m1[w].delivered)
    ensures One(m[w].Receiving? && m[w].got) + One(Is(e, MessageTo, w)) ==
      One(Is(e, RecvOk, w)) + One(m1[w].Receiving? && m1[w].got)
  {
  }

  lemma {:induction false} BalancedStep(ids: seq<Ident>, m: seq<Role>, e: Event, m1: seq<Role>, w: nat,
      rest: seq<Event>, m': Role)
    requires |m| == |ids| && w < |m| && Observe(ids, m, e) == Some(m1)
    requires Balanced(rest, m1[w], m', w)
    ensures Balanced([e] + rest, m[w], m', w)
  {
    var ev := [e] + rest;
    assert ev[0] == e && ev[1..] == rest;
    BalancedEvent(ids, m, e, m1, w);
    assert forall k: Kind :: Count(ev, k, w) == One(Is(e, k, w)) + Count(rest, k, w);
  }

  /** Accepted events balance the books of every thread. */
  lemma {:induction false} AcceptedBalances(ids: seq<Ident>, m: seq<Role>, ev: seq<Event>, w: nat)
    requires |m| == |ids| && w < |m| && ObserveAll(ids, m, ev).Some?
    ensures Balanced(ev, m[w], ObserveAll(ids, m, ev).value[w], w)
    decreases |ev|
  {
    if ev != [] {
      var m1 := Observe(ids, m, ev[0]).value;
      AcceptedBalances(ids, m1, ev[1..], w);
      assert ev == [ev[0]] + ev[1..];
      BalancedStep(ids, m, ev[0], m1, w, ev[1..], ObserveAll(ids, m, ev).value[w]);
    }
  }

  // ---------- Within one call ----------

  /** Messages copied by ev, whoever is involved. */
  function Copies(ev: seq<Event>): nat {
    if ev == [] then 0 else One(ev[0].Copied?) + Copies(ev[1..])
  }

  lemma {:induction false} CopiesConcat(a: seq<Event>, b: seq<Event>)
    ensures Copies(a + b) == Copies(a) + Copies(b)
    decreases |a|
  {
    if a == [] {
      assert a + b == b;
    } else {
      assert (a + b)[1..] == a[1..] + b;
      CopiesConcat(a[1..], b);
    }
  }

  lemma {:induction false} CountFirst(e: Event, rest: seq<Event>, w: nat)
    ensures Count([e] + rest, MessageTo, w) == One(Is(e, MessageTo, w)) + Count(rest, MessageTo, w)
    ensures Count([e] + rest, MessageFrom, w) == One(Is(e, MessageFrom, w)) + Count(rest, MessageFrom, w)
  {
    assert ([e] + rest)[1..] == rest;
  }

  lemma {:induction false} CopiesFirst(e: Event, rest: seq<Event>)
    ensures Copies([e] + rest) == One(e.Copied?) + Copies(rest)
  {
    assert ([e] + rest)[1..] == rest;
  }

  /** Nobody receives twice or sends twice, receivers are t or were blocked senders, senders were
      blocked senders, and those of visited have no part. */
  ghost predicate ServesOnce(s: State, t: nat, visited: set<nat>, ev: seq<Event>) {
    && (forall w: nat :: Count(ev, MessageTo, w) <=
          One(w in Remaining(s, visited) && w < |s.ids| && (w == t || s.states[w] == SendBlocked)))
    && (forall w: nat :: Count(ev, MessageFrom, w) <=
          One(w in Remaining(s, visited + {t}) && w < |s.ids| && s.states[w] == SendBlocked))
    && Copies(ev) <= |Remaining(s, visited + {t})|
  }

  lemma {:induction false} NothingServed(s: State, t: nat, visited: set<nat>, ev: seq<Event>)
    requires Copies(ev) == 0
    requires forall w: nat :: Count(ev, MessageTo, w) == 0 && Count(ev, MessageFrom, w) == 0
    ensures ServesOnce(s, t, visited, ev)
  {
  }

  lemma {:induction false} CountOfNoMessages(ev: seq<Event>, w: nat)
    requires forall i :: 0 <= i < |ev| ==> !ev[i].Copied? && !ev[i].PagerCopied? && !ev[i].PagerStarted?
    ensures Count(ev, MessageTo, w) == 0 && Count(ev, MessageFrom, w) == 0 && Copies(ev) == 0
    decreases |ev|
  {
    if ev != [] {
      CountOfNoMessages(ev[1..], w);
    }
  }

  lemma {:induction false} QuietEventsServeOnce(s: State, t: nat, visited: set<nat>, ev: seq<Event>)
    requires forall i :: 0 <= i < |ev| ==> !ev[i].Copied? && !ev[i].PagerCopied? && !ev[i].PagerStarted?
    ensures ServesOnce(s, t, visited, ev)
  {
    forall w: nat
      ensures Count(ev, MessageTo, w) == 0 && Count(ev, MessageFrom, w) == 0 && Copies(ev) == 0
    {
      CountOfNoMessages(ev, w);
    }
    assert Count(ev, MessageTo, 0) == 0;
    NothingServed(s, t, visited, ev);
  }

  lemma {:induction false} QuietSuffix(s: State, t: nat, visited: set<nat>, ev: seq<Event>, more: seq<Event>)
    requires ServesOnce(s, t, visited, ev)
    requires forall i :: 0 <= i < |more| ==> !more[i].Copied? && !more[i].PagerCopied? && !more[i].PagerStarted?
    ensures ServesOnce(s, t, visited, ev + more)
  {
    CopiesConcat(ev, more);
    CountOfNoMessages(more, 0);
    forall w: nat, k: Kind | k == MessageTo || k == MessageFrom
      ensures Count(ev + more, k, w) == Count(ev, k, w)
    {
      CountConcat(ev, more, k, w);
      CountOfNoMessages(more, w);
    }
  }

  lemma {:induction false} ServedOnce(s: State, t: nat, visited: set<nat>, p: nat, s1: State, from: Word,
      ev: seq<Event>)
    requires IsThread(s, t) && t !in visited && IsThread(s, p) && p !in visited && p != t
    requires s.states[p] == SendBlocked && SameThreadsAs(s, s1) && OnlyUtcbs(s, s1)
    requires ServesOnce(s1, p, visited + {t}, ev)
    ensures ServesOnce(s, t, visited, [RecvBegin(t, from), Event.Copied(p, t), SendEnd(p, true)] + ev)
  {
    var e1, e2, e3 := RecvBegin(t, from), Event.Copied(p, t), SendEnd(p, true);
    assert [e1, e2, e3] + ev == [e1] + ([e2] + ([e3] + ev));
    assert Remaining(s, visited + {t}) == Remaining(s1, visited + {t} + {p}) + {p};
    CopiesFirst(e1, [e2] + ([e3] + ev));
    CopiesFirst(e2, [e3] + ev);
    CopiesFirst(e3, ev);
    forall w: nat
      ensures Count([e1, e2, e3] + ev, MessageTo, w) == One(w == t) + Count(ev, MessageTo, w)
      ensures Count([e1, e2, e3] + ev, MessageFrom, w) == One(w == p) + Count(ev, MessageFrom, w)
    {
      CountFirst(e1, [e2] + ([e3] + ev), w);
      CountFirst(e2, [e3] + ev, w);
      CountFirst(e3, ev, w);
    }
  }

  /** A receive phase and everything it sets off: the senders served in turn are all different, so
      there are fewer of them than threads. */
  lemma {:induction false} RecvServesOnce(s: State, t: nat, from: Word, timeout: Time, visited: set<nat>)
    requires Chain(s, t, visited) && IsTime(timeout)
    requires IpcRecv(s, t, from, timeout, visited).Phase?
    ensures ServesOnce(s, t, visited, IpcRecv(s, t, from, timeout, visited).ev)
    decreases Remaining(s, visited), 0
  {
    var r := IpcRecv(s, t, from, timeout, visited);
    var search := if from == NILTHREAD then NotReady else FindPartner(s, t, from, false);
    if search.Found? && CopyPayload(s, search.partner, t).code == NoError {
      var p := search.partner;
      var s1 := CopyPayload(s, p, t).s;
      ServedIs(s, t, from, timeout, visited, p, s1);
      ChainGrows(s, t, visited, p);
      ChainServesOnce(s1, p, visited + {t});
      ServedOnce(s, t, visited, p, s1, from, DoIpc(s1, p, true, visited + {t}).ev);
    } else {
      QuietEventsServeOnce(s, t, visited, r.ev);
    }
  }

  lemma {:induction false} ChainServesOnce(s: State, t: nat, visited: set<nat>)
    requires Chain(s, t, visited)
    requires DoIpc(s, t, true, visited).Done?
    ensures ServesOnce(s, t, visited, DoIpc(s, t, true, visited).ev)
    decreases Remaining(s, visited), 1
  {
    var regs := s.regs[t];
    RecvServesOnce(s, t, regs.r1, RecvTimeout(regs.r2), visited);
    var recv := IpcRecv(s, t, regs.r1, RecvTimeout(regs.r2), visited);
    var ev := DoIpc(s, t, true, visited).ev;
    assert ev == recv.ev + ev[|recv.ev|..];
    QuietSuffix(s, t, visited, recv.ev, ev[|recv.ev|..]);
  }

  predicate IsMessage(e: Event) {
    e.Copied? || e.PagerCopied? || e.PagerStarted?
  }

  /** At most one event of ev hands over a message, and if so the second one. */
  lemma {:induction false} AtMostOneMessage(ev: seq<Event>, w: nat)
    requires forall i :: 0 <= i < |ev| && i != 1 ==> !IsMessage(ev[i])
    ensures Copies(ev) <= 1
    ensures Count(ev, MessageFrom, w) == One(|ev| > 1 && Is(ev[1], MessageFrom, w))
    ensures Count(ev, MessageTo, w) == One(|ev| > 1 && Is(ev[1], MessageTo, w))
  {
    if |ev| <= 1 {
      CountOfNoMessages(ev, w);
    } else {
      assert ev == [ev[0]] + ([ev[1]] + ev[2..]);
      CountFirst(ev[0], [ev[1]] + ev[2..], w);
      CountFirst(ev[1], ev[2..], w);
      CopiesFirst(ev[0], [ev[1]] + ev[2..]);
      CopiesFirst(ev[1], ev[2..]);
      CountOfNoMessages(ev[2..], w);
    }
  }

  /** Only the second event of a send phase can be a message; it is from t, and its receiver is no longer waiting. */
  ghost predicate SendsAtMostOne(s: State, t: nat, r: PhaseOutcome)
    requires IsThread(s, t) && r.Phase? && SameThreadsAs(s, r.s)
  {
    && (forall i :: 0 <= i < |r.ev| && i != 1 ==> !IsMessage(r.ev[i]))
    && (|r.ev| > 1 && IsMessage(r.ev[1]) ==> r.ev[1].from == t)
    && (|r.ev| > 1 && r.ev[1].Copied? ==>
          r.phase == PhaseDone && r.ev[1].to < |s.ids| && r.ev[1].to != t && r.s.states[r.ev[1].to] != SendBlocked)
  }

  lemma {:induction false} PartnerEvents(s: State, t: nat, to: Word, p: nat)
    requires IsThread(s, t) && IsThread(s, p) && p != t && SendToPartner(s, t, to, p).Phase?
    ensures SendsAtMostOne(s, t, SendToPartner(s, t, to, p))
  {
  }

  lemma {:induction false} PagerEvents(s: State, t: nat, to: Word, p: nat)
    requires IsThread(s, t) && IsThread(s, p) && SendAsPager(s, t, to, p).Phase?
    ensures SendsAtMostOne(s, t, SendAsPager(s, t, to, p))
  {
  }

  lemma {:induction false} SendEvents(s: State, t: nat, to: Word, timeout: Time)
    requires IsThread(s, t) && IsTime(timeout) && s.states[t] != RecvBlocked
    requires IpcSend(s, t, to, timeout).Phase?
    ensures SendsAtMostOne(s, t, IpcSend(s, t, to, timeout))
  {
    if to != NILTHREAD && SendPeer(to) {
      match FindPartner(s, t, to, true)
      case Found(p) => PartnerEvents(s, t, to, p);
      case PagerMsg(p) => PagerEvents(s, t, to, p);
      case NotReady => NoTimeoutRefuses(s, t, timeout, SendBlocked);
      case Nonexistent =>
    }
  }

  /** The send phase hands over at most one message, from t and to a thread that was not waiting to
      send. */
  lemma {:induction false} SendServesOnce(s: State, t: nat, to: Word, timeout: Time)
    requires IsThread(s, t) && IsTime(timeout) && s.states[t] != RecvBlocked
    requires IpcSend(s, t, to, timeout).Phase?
    ensures var r := IpcSend(s, t, to, timeout);
      Copies(r.ev) <= 1 &&
      (forall w: nat :: Count(r.ev, MessageFrom, w) <= One(w == t)) &&
      (forall w: nat :: Count(r.ev, MessageTo, w) <=
        One(r.phase == PhaseDone && w < |s.ids| && w != t && r.s.states[w] != SendBlocked))
  {
    SendEvents(s, t, to, timeout);
    var r := IpcSend(s, t, to, timeout);
    AtMostOneMessage(r.ev, 0);
    forall w: nat
      ensures Count(r.ev, MessageFrom, w) <= One(w == t)
      ensures Count(r.ev, MessageTo, w) <=
        One(r.phase == PhaseDone && w < |s.ids| && w != t && r.s.states[w] != SendBlocked)
    {
      AtMostOneMessage(r.ev, w);
    }
  }

  /** A send phase that is done and the receive phase after it, in state s1, together serve no one twice. */
  lemma {:induction false} BothPhasesServeOnce(s1: State, t: nat, send: seq<Event>, rest: seq<Event>)
    requires IsThread(s1, t) && ServesOnce(s1, t, {}, rest) && Copies(send) <= 1
    requires forall w: nat :: Count(send, MessageFrom, w) <= One(w == t)
    requires forall w: nat :: Count(send, MessageTo, w) <= One(w < |s1.ids| && w != t && s1.states[w] != SendBlocked)
    ensures forall w: nat :: Count(send + rest, MessageTo, w) <= 1 && Count(send + rest, MessageFrom, w) <= 1
    ensures Copies(send + rest) <= |s1.ids|
  {
    CopiesConcat(send, rest);
    RemainingBound(s1, t);
    forall w: nat
      ensures Count(send + rest, MessageTo, w) <= 1 && Count(send + rest, MessageFrom, w) <= 1
    {
      CountConcat(send, rest, MessageTo, w);
      CountConcat(send, rest, MessageFrom, w);
    }
  }

  /** Exactly once within a call: whatever receives a system call sets off, no thread gets two
      messages and no thread's message is taken twice, so at most one message per thread moves. */
  lemma {:induction false} CallServesOnce(s: State, t: nat)
    requires Chain(s, t, {}) && s.states[t] != SendBlocked && s.states[t] != RecvBlocked
    requires DoIpc(s, t, false, {}).Done?
    ensures var ev := DoIpc(s, t, false, {}).ev;
      (forall w: nat :: Count(ev, MessageTo, w) <= 1 && Count(ev, MessageFrom, w) <= 1) && Copies(ev) <= |s.ids|
  {
    var regs, ev := s.regs[t], DoIpc(s, t, false, {}).ev;
    var send := IpcSend(s, t, regs.r0, SendTimeout(regs.r2));
    SendServesOnce(s, t, regs.r0, SendTimeout(regs.r2));
    if send.phase == PhaseDone {
      ChainKept(s, send.s, t, {});
      RecvServesOnce(send.s, t, regs.r1, RecvTimeout(regs.r2), {});
      var recv := IpcRecv(send.s, t, regs.r1, RecvTimeout(regs.r2), {});
      var more := ev[|send.ev| + |recv.ev|..];
      assert ev == send.ev + (recv.ev + more);
      QuietSuffix(send.s, t, {}, recv.ev, more);
      BothPhasesServeOnce(send.s, t, send.ev, recv.ev + more);
    } else {
      assert ev == send.ev;
    }
  }

  lemma {:induction false} RemainingBound(s: State, t: nat)
    requires IsThread(s, t)
    ensures |Remaining(s, {} + {t})| < |s.ids|
  {
    var r := Remaining(s, {} + {t});
    BelowBound(r + {t}, |s.ids|);
  }
}
