/** Exactly-once delivery. A monitor watches the events of the IPC phases and rejects any phase that
    is begun twice, ends without having been begun, ends well without exactly one message or ends
    badly, or is cut short, with one, and any message between threads that did not ask for each other. No call is ever
    rejected, and at each call's end the monitor's view is the one the thread states show. */
module IpcDelivery {
  import opened Words
  import opened KernelState
  import opened Ipc
  import opened IpcRendezvous
  import opened L4Time

  /** What a thread is doing, and whether its message has already been copied. */
  datatype Role = Idle | Sending(dest: Word, delivered: bool) | Receiving(spec: Word, got: bool)

  /** One event; None is a violation. */
  function Observe(ids: seq<Ident>, m: seq<Role>, e: Event): (r: Option<seq<Role>>)
    requires |m| == |ids|
    ensures r.Some? ==> |r.value| == |m|
  {
    match e
    case SendBegin(w, dest) =>
      if w < |m| && m[w] == Idle then Some(m[w := Sending(dest, false)]) else None
    case RecvBegin(w, spec) =>
      if w < |m| && m[w] == Idle then Some(m[w := Receiving(spec, false)]) else None
    case Copied(f, t) =>
      if f < |m| && t < |m| && m[f].Sending? && !m[f].delivered && SameThreads(m[f].dest, ids[t].globalId) &&
         m[t].Receiving? && !m[t].got && (m[t].spec == ANYTHREAD || SameThreads(m[t].spec, ids[f].globalId))
      then Some(m[f := m[f].(delivered := true)][t := m[t].(got := true)])
      else None
    case PagerCopied(f, t) => ObservePager(ids, m, f, t)
    case PagerStarted(f, t) => ObservePager(ids, m, f, t)
    case SendEnd(w, ok) =>
      if w < |m| && m[w].Sending? && m[w].delivered == ok then Some(m[w := Idle]) else None
    case RecvEnd(w, ok) =>
      if w < |m| && m[w].Receiving? && m[w].got == ok then Some(m[w := Idle]) else None
    case CutShort(w, receiving) =>
      if w < |m| && (if receiving then m[w].Receiving? && !m[w].got else m[w].Sending? && !m[w].delivered)
      then Some(m[w := Idle]) else None
  }

  /** A pager's message to a thread that has not started yet, and so is in no phase. */
  function ObservePager(ids: seq<Ident>, m: seq<Role>, f: nat, t: nat): (r: Option<seq<Role>>)
    requires |m| == |ids|
    ensures r.Some? ==> |r.value| == |m|
  {
    if f < |m| && t < |m| && m[f].Sending? && !m[f].delivered && SameThreads(m[f].dest, ids[t].globalId) && m[t] == Idle
    then Some(m[f := m[f].(delivered := true)])
    else None
  }

  function ObserveAll(ids: seq<Ident>, m: seq<Role>, ev: seq<Event>): (r: Option<seq<Role>>)
    requires |m| == |ids|
    ensures r.Some? ==> |r.value| == |m|
    decreases |ev|
  {
    if ev == [] then Some(m)
    else
      match Observe(ids, m, ev[0])
      case None => None
      case Some(m') => ObserveAll(ids, m', ev[1..])
  }

  lemma {:induction false} ObserveFirst(ids: seq<Ident>, m: seq<Role>, e: Event, rest: seq<Event>)
    requires |m| == |ids| && Observe(ids, m, e).Some?
    ensures ObserveAll(ids, m, [e] + rest) == ObserveAll(ids, Observe(ids, m, e).value, rest)
  {
    assert ([e] + rest)[1..] == rest;
  }

  lemma {:induction false} ObserveOne(ids: seq<Ident>, m: seq<Role>, e: Event)
    requires |m| == |ids| && Observe(ids, m, e).Some?
    ensures ObserveAll(ids, m, [e]) == Observe(ids, m, e)
  {
    assert [e][1..] == [];
  }

  /** Two events, and m1 what the monitor shows between them. */
  lemma {:induction false} ObserveTwo(ids: seq<Ident>, m: seq<Role>, m1: seq<Role>, a: Event, b: Event)
    requires |m| == |m1| == |ids| && Observe(ids, m, a) == Some(m1) && Observe(ids, m1, b).Some?
    ensures ObserveAll(ids, m, [a, b]) == Observe(ids, m1, b)
  {
    assert [a, b] == [a] + [b];
    ObserveFirst(ids, m, a, [b]);
    ObserveOne(ids, m1, b);
  }

  lemma {:induction false} ObserveConcat(ids: seq<Ident>, m: seq<Role>, a: seq<Event>, b: seq<Event>)
    requires |m| == |ids| && ObserveAll(ids, m, a).Some?
    ensures ObserveAll(ids, m, a + b) == ObserveAll(ids, ObserveAll(ids, m, a).value, b)
    decreases |a|
  {
    if a == [] {
      assert a + b == b;
    } else {
      ObserveConcat(ids, Observe(ids, m, a[0]).value, a[1..], b);
      assert (a + b)[1..] == a[1..] + b;
    }
  }

  /** The role that a thread's state shows between calls. */
  function RoleOf(s: State, i: nat): Role
    requires IsThread(s, i)
  {
    match s.states[i]
    case SendBlocked => Sending(s.peers[i], false)
    case RecvBlocked => Receiving(s.peers[i], false)
    case _ => Idle
  }

  function Roles(s: State): (m: seq<Role>)
    ensures |m| == |s.ids|
    ensures forall i :: 0 <= i < |s.ids| ==> m[i] == RoleOf(s, i)
  {
    seq(|s.ids|, i requires 0 <= i < |s.ids| => RoleOf(s, i))
  }

  /** m shows every thread outside except as its state does. */
  ghost predicate Shows(s: State, m: seq<Role>, except: set<nat>) {
    |m| == |s.ids| && forall i :: 0 <= i < |m| && i !in except ==> m[i] == RoleOf(s, i)
  }

  // ---------- The phases are accepted ----------

  /** A willing blocked partner of t names t or, when receiving, anyone. */
  lemma {:induction false} PartnerNamesTarget(s: State, t: nat, sending: bool, p: nat)
    requires IpcInv(s) && IsThread(s, t) && IsThread(s, p) && IsPartner(s, t, Blocked(sending), p)
    ensures s.peers[p] == s.ids[t].globalId || (sending && s.peers[p] == ANYTHREAD)
  {
  }

  lemma {:induction false} FoundIsNamed(s: State, t: nat, who: Word, sending: bool)
    requires IsThread(s, t)
    requires FindPartner(s, t, who, sending).Found? || FindPartner(s, t, who, sending).PagerMsg?
    ensures who == ANYTHREAD || SameThreads(who, s.ids[FindPartner(s, t, who, sending).partner].globalId)
  {
  }

  /** A message to the blocked receiver p arrives, or is reported to both. */
  lemma {:induction false} SendFoundObserved(s: State, t: nat, to: Word, p: nat, m1: seq<Role>, s1: State, ok: bool)
    requires IpcInv(s) && IsThread(s, t) && IsThread(s, p) && s.states[t] != RecvBlocked
    requires IsPartner(s, t, RecvBlocked, p) && SameThreads(to, s.ids[p].globalId)
    requires Shows(s, m1, {t}) && m1[t] == Sending(to, false)
    requires SameThreadsAs(s, s1) && s1.states == s.states[p := Runnable] && s1.peers == s.peers
    ensures var ev :=
        if ok then [Event.Copied(t, p), RecvEnd(p, true), SendEnd(t, true)] else [RecvEnd(p, false), SendEnd(t, false)];
      var o := ObserveAll(s.ids, m1, ev);
      o.Some? && Shows(s1, o.value, {t}) && o.value[t] == Idle
  {
    PartnerNamesTarget(s, t, true, p);
    if ok {
      var m2 := m1[t := Sending(to, true)][p := Receiving(s.peers[p], true)];
      assert [Event.Copied(t, p), RecvEnd(p, true), SendEnd(t, true)] ==
        [Event.Copied(t, p)] + [RecvEnd(p, true), SendEnd(t, true)];
      ObserveFirst(s.ids, m1, Event.Copied(t, p), [RecvEnd(p, true), SendEnd(t, true)]);
      ObserveTwo(s.ids, m2, m2[p := Idle], RecvEnd(p, true), SendEnd(t, true));
    } else {
      ObserveTwo(s.ids, m1, m1[p := Idle], RecvEnd(p, false), SendEnd(t, false));
    }
  }

  /** A pager's message to the thread p that has not started. */
  lemma {:induction false} SendPagerObserved(s: State, t: nat, to: Word, p: nat, m1: seq<Role>, s1: State, e: Event)
    requires IsThread(s, t) && IsThread(s, p) && s.states[p] == Active && t != p
    requires SameThreads(to, s.ids[p].globalId)
    requires Shows(s, m1, {t}) && m1[t] == Sending(to, false)
    requires SameThreadsAs(s, s1) && s1.peers == s.peers
    requires s1.states == s.states || s1.states == s.states[p := Runnable]
    requires e == PagerCopied(t, p) || e == PagerStarted(t, p)
    ensures var o := ObserveAll(s.ids, m1, [e, SendEnd(t, true)]);
      o.Some? && Shows(s1, o.value, {t}) && o.value[t] == Idle
  {
    ObserveTwo(s.ids, m1, m1[t := Sending(to, true)], e, SendEnd(t, true));
  }

  lemma {:induction false} SendFailedObserved(s: State, t: nat, to: Word, m1: seq<Role>, s1: State)
    requires IsThread(s, t) && Shows(s, m1, {t}) && m1[t] == Sending(to, false)
    requires SameThreadsAs(s, s1) && s1.peers == s.peers && s1.states == s.states
    ensures var o := ObserveAll(s.ids, m1, [SendEnd(t, false)]);
      o.Some? && Shows(s1, o.value, {t}) && o.value[t] == Idle
  {
    ObserveOne(s.ids, m1, SendEnd(t, false));
  }

  /** What the rest of a send phase leaves, its first event being accounted for in m1. */
  ghost predicate SendLeaves(s: State, t: nat, to: Word, m1: seq<Role>, r: PhaseOutcome)
    requires IsThread(s, t) && |m1| == |s.ids|
  {
    r.Phase? ==>
      SameThreadsAs(s, r.s) && r.ev != [] && r.ev == [SendBegin(t, to)] + r.ev[1..] &&
      var o := ObserveAll(s.ids, m1, r.ev[1..]);
      o.Some? && |o.value| == |s.ids| && Shows(r.s, o.value, {t}) &&
      o.value[t] == (if r.phase == PhaseWait then Sending(to, false) else Idle) &&
      (r.phase == PhaseWait ==> r.s.peers[t] == to)
  }

  lemma {:induction false} SendPartnerLeaves(s: State, t: nat, to: Word, p: nat, m1: seq<Role>)
    requires IpcInv(s) && IsThread(s, t) && s.states[t] != RecvBlocked
    requires to != NILTHREAD && SendPeer(to) && Shows(s, m1, {t}) && m1[t] == Sending(to, false)
    requires FindPartner(s, t, to, true) == Found(p)
    ensures SendLeaves(s, t, to, m1, SendToPartner(s, t, to, p))
  {
    var r := SendToPartner(s, t, to, p);
    FoundIsNamed(s, t, to, true);
    if r.Phase? {
      var ok := CopyPayload(s, t, p).code == NoError;
      SendFoundObserved(s, t, to, p, m1, r.s, ok);
      assert r.ev[1..] ==
        if ok then [Event.Copied(t, p), RecvEnd(p, true), SendEnd(t, true)] else [RecvEnd(p, false), SendEnd(t, false)];
    }
  }

  lemma {:induction false} SendPagerLeaves(s: State, t: nat, to: Word, p: nat, m1: seq<Role>)
    requires IpcInv(s) && IsThread(s, t) && s.states[t] != Active
    requires to != NILTHREAD && SendPeer(to) && Shows(s, m1, {t}) && m1[t] == Sending(to, false)
    requires FindPartner(s, t, to, true) == PagerMsg(p)
    ensures SendLeaves(s, t, to, m1, SendAsPager(s, t, to, p))
  {
    var r := SendAsPager(s, t, to, p);
    FoundIsNamed(s, t, to, true);
    if r.Phase? && r.phase == PhaseDone {
      assert r.ev[1..] == [r.ev[1], SendEnd(t, true)];
      SendPagerObserved(s, t, to, p, m1, r.s, r.ev[1]);
    } else if r.Phase? {
      assert r.ev[1..] == [SendEnd(t, false)];
      SendFailedObserved(s, t, to, m1, r.s);
    }
  }

  lemma {:induction false} SendLaterLeaves(s: State, t: nat, to: Word, timeout: Time, m1: seq<Role>)
    requires IpcInv(s) && IsThread(s, t) && IsTime(timeout)
    requires to != NILTHREAD && SendPeer(to) && Shows(s, m1, {t}) && m1[t] == Sending(to, false)
    ensures SendLeaves(s, t, to, m1, SendLater(s, t, to, timeout))
  {
    var r := SendLater(s, t, to, timeout);
    if r.Phase? && r.phase == PhaseWait {
      assert r.ev[1..] == [];
    } else if r.Phase? {
      assert r.ev[1..] == [SendEnd(t, false)];
      SendFailedObserved(s, t, to, m1, r.s);
    }
  }

  /** The send phase of t after its beginning. Its events are accepted; when it is over t is idle
      again, and when it waits t is sending. Every other thread is as its state shows. */
  lemma {:induction false} SendRestObserved(s: State, t: nat, to: Word, timeout: Time, m1: seq<Role>)
    requires IpcInv(s) && IsThread(s, t) && IsTime(timeout)
    requires s.states[t] != RecvBlocked && s.states[t] != Active
    requires to != NILTHREAD && Shows(s, m1, {t}) && m1[t] == Sending(to, false)
    ensures SendLeaves(s, t, to, m1, IpcSend(s, t, to, timeout))
  {
    if SendPeer(to) {
      match FindPartner(s, t, to, true)
      case Found(p) => SendPartnerLeaves(s, t, to, p, m1);
      case PagerMsg(p) => SendPagerLeaves(s, t, to, p, m1);
      case NotReady => SendLaterLeaves(s, t, to, timeout, m1);
      case Nonexistent =>
        var r := IpcSend(s, t, to, timeout);
        assert r.ev[1..] == [SendEnd(t, false)];
        SendFailedObserved(s, t, to, m1, r.s);
    }
  }

  lemma {:induction false} SendObserved(s: State, t: nat, to: Word, timeout: Time, m: seq<Role>)
    requires IpcInv(s) && IsThread(s, t) && IsTime(timeout)
    requires s.states[t] != RecvBlocked && s.states[t] != Active
    requires Shows(s, m, {t}) && m[t] == Idle
    requires IpcSend(s, t, to, timeout).Phase?
    ensures var r := IpcSend(s, t, to, timeout);
      var o := ObserveAll(s.ids, m, r.ev);
      o.Some? && Shows(r.s, o.value, {t}) &&
      o.value[t] == (if r.phase == PhaseWait then Sending(to, false) else Idle) &&
      (r.phase == PhaseWait ==> r.s.peers[t] == to)
  {
    if to != NILTHREAD {
      SendRestObserved(s, t, to, timeout, m[t := Sending(to, false)]);
      ObserveFirst(s.ids, m, SendBegin(t, to), IpcSend(s, t, to, timeout).ev[1..]);
    }
  }

  /** The message of the blocked sender p arrives at t. */
  lemma {:induction false} RecvFoundObserved(s: State, t: nat, from: Word, p: nat, m1: seq<Role>, visited: set<nat>)
    requires IpcInv(s) && IsThread(s, t) && IsThread(s, p) && p !in visited && p != t
    requires IsPartner(s, t, SendBlocked, p) && (from == ANYTHREAD || SameThreads(from, s.ids[p].globalId))
    requires Shows(s, m1, visited + {t}) && m1[t] == Receiving(from, false)
    ensures ObserveAll(s.ids, m1, [Event.Copied(p, t), SendEnd(p, true)]) ==
      Some(m1[p := Idle][t := Receiving(from, true)])
    ensures ObserveAll(s.ids, m1, [SendEnd(p, false), RecvEnd(t, false)]) == Some(m1[p := Idle][t := Idle])
  {
    PartnerNamesTarget(s, t, false, p);
    var m2 := m1[p := Sending(s.peers[p], true)][t := Receiving(from, true)];
    ObserveTwo(s.ids, m1, m2, Event.Copied(p, t), SendEnd(p, true));
    assert m2[p := Idle] == m1[p := Idle][t := Receiving(from, true)];
    ObserveTwo(s.ids, m1, m1[p := Idle], SendEnd(p, false), RecvEnd(t, false));
  }

  lemma {:induction false} RecvFailedObserved(s: State, t: nat, from: Word, m1: seq<Role>, s1: State, visited: set<nat>)
    requires IsThread(s, t) && Shows(s, m1, visited + {t}) && m1[t] == Receiving(from, false)
    requires SameThreadsAs(s, s1) && s1.peers == s.peers && s1.states == s.states
    ensures ObserveAll(s.ids, m1, [RecvEnd(t, false)]) == Some(m1[t := Idle]) && Shows(s1, m1[t := Idle], visited + {t})
  {
    ObserveOne(s.ids, m1, RecvEnd(t, false));
  }

  ghost predicate Untouched(visited: set<nat>, before: seq<Role>, after: seq<Role>) {
    |after| == |before| && forall i :: 0 <= i < |before| && i in visited ==> after[i] == before[i]
  }

  /** The roles once t has the message of the sender p. */
  lemma {:induction false} ServedShows(s: State, t: nat, from: Word, p: nat, m1: seq<Role>, visited: set<nat>,
      s1: State)
    requires IsThread(s, t) && IsThread(s, p) && p !in visited && p != t && t !in visited
    requires Shows(s, m1, visited + {t}) && SameThreadsAs(s, s1) && OnlyUtcbs(s, s1)
    ensures var m2 := m1[p := Idle][t := Receiving(from, true)];
      Shows(s1, m2, visited + {t} + {p}) && m2[p] == Idle
  {
  }

  /** The sender p, served, goes on with its own receive phase, which leaves the roles m3. */
  lemma {:induction false} ServedObserved(s: State, t: nat, from: Word, p: nat, m1: seq<Role>, visited: set<nat>,
      ev: seq<Event>, m3: seq<Role>)
    requires IpcInv(s) && IsThread(s, t) && IsThread(s, p) && p !in visited && p != t && t !in visited
    requires IsPartner(s, t, SendBlocked, p) && (from == ANYTHREAD || SameThreads(from, s.ids[p].globalId))
    requires Shows(s, m1, visited + {t}) && m1[t] == Receiving(from, false)
    requires var m2 := m1[p := Idle][t := Receiving(from, true)];
      ObserveAll(s.ids, m2, ev) == Some(m3) && Untouched(visited + {t}, m2, m3)
    ensures ObserveAll(s.ids, m1, [Event.Copied(p, t), SendEnd(p, true)] + ev) == Some(m3)
    ensures m3[t] == Receiving(from, true) && Untouched(visited, m1, m3)
  {
    RecvFoundObserved(s, t, from, p, m1, visited);
    ObserveConcat(s.ids, m1, [Event.Copied(p, t), SendEnd(p, true)], ev);
  }

  /** What the receive phase of t leaves behind. */
  ghost predicate RecvLeaves(s: State, t: nat, from: Word, visited: set<nat>, before: seq<Role>, r: PhaseOutcome,
      after: seq<Role>)
    requires r.Phase? && IsThread(s, t) && |before| == |s.ids|
  {
    && Shows(r.s, after, visited + {t}) && Untouched(visited, before, after)
    && (match r.phase
        case PhaseWait => after[t] == Receiving(from, false) && IsThread(r.s, t) && r.s.peers[t] == from
        case PhaseDone => after[t] == if from == NILTHREAD then Idle else Receiving(from, true)
        case PhaseError => after[t] == Idle)
  }

  /** What the rest of a receive phase leaves, its first event being accounted for in m1. */
  ghost predicate RecvAccepted(s: State, t: nat, from: Word, visited: set<nat>, m1: seq<Role>, r: PhaseOutcome)
    requires IsThread(s, t) && |m1| == |s.ids|
  {
    r.Phase? ==>
      r.ev != [] && r.ev == [RecvBegin(t, from)] + r.ev[1..] &&
      var o := ObserveAll(s.ids, m1, r.ev[1..]);
      o.Some? && RecvLeaves(s, t, from, visited, m1, r, o.value)
  }

  /** The receive phase of t, by what the call of the sender it served does. */
  lemma {:induction false} ServingAccepted(
    s: State, t: nat, from: Word, p: nat, visited: set<nat>, m1: seq<Role>, d: Outcome, m3: seq<Role>)
    requires IsThread(s, t) && |m1| == |s.ids| && from != NILTHREAD
    requires d.Done? && Shows(d.s, m3, visited + {t}) && Untouched(visited, m1, m3) && m3[t] == Receiving(from, true)
    requires ObserveAll(s.ids, m1, [Event.Copied(p, t), SendEnd(p, true)] + d.ev) == Some(m3)
    ensures RecvAccepted(s, t, from, visited, m1, AfterServing(t, from, p, d))
  {
    var r := AfterServing(t, from, p, d);
    assert r.ev[1..] == [Event.Copied(p, t), SendEnd(p, true)] + d.ev;
  }

  lemma {:induction false} RecvServedObserved(s: State, t: nat, from: Word, timeout: Time, visited: set<nat>,
      m1: seq<Role>, p: nat, s1: State)
    requires Chain(s, t, visited) && IsTime(timeout)
    requires IpcInv(s) && CurrentRuns(s) && t != s.current
    requires from != NILTHREAD && RecvPeer(from) && Shows(s, m1, visited + {t}) && m1[t] == Receiving(from, false)
    requires FindPartner(s, t, from, false) == Found(p) && CopyPayload(s, p, t) == Payload(s1, NoError)
    ensures RecvAccepted(s, t, from, visited, m1, IpcRecv(s, t, from, timeout, visited))
    decreases Remaining(s, visited), 0
  {
    ServedIs(s, t, from, timeout, visited, p, s1);
    FoundIsNamed(s, t, from, false);
    UtcbsKeep(s, s1);
    var m2 := m1[p := Idle][t := Receiving(from, true)];
    var d := DoIpc(s1, p, true, visited + {t});
    ServedShows(s, t, from, p, m1, visited, s1);
    if d.Done? {
      ServedSenderObserved(s1, p, visited + {t}, m2);
      var m3 := ObserveAll(s.ids, m2, d.ev).value;
      ServedObserved(s, t, from, p, m1, visited, d.ev, m3);
      ServingAccepted(s, t, from, p, visited, m1, d, m3);
    }
  }

  lemma {:induction false} OverflowLeaves(s: State, t: nat, from: Word, p: nat)
    requires IsThread(s, t) && IsThread(s, p) && CopyPayload(s, p, t).Payload?
    ensures var r := RecvOverflow(CopyPayload(s, p, t).s, t, from, p);
      r.phase == PhaseError && r.ev == [RecvBegin(t, from), SendEnd(p, false), RecvEnd(t, false)] &&
      SameThreadsAs(s, r.s) && r.s.states == s.states[p := Runnable] && r.s.peers == s.peers
  {
  }

  /** The state that a failed copy from the ready sender p leaves. */
  lemma {:induction false} OverflowShows(s: State, t: nat, p: nat, visited: set<nat>, m1: seq<Role>, s1: State)
    requires IsThread(s, t) && IsThread(s, p) && p != t && p !in visited && t !in visited
    requires Shows(s, m1, visited + {t})
    requires SameThreadsAs(s, s1) && s1.states == s.states[p := Runnable] && s1.peers == s.peers
    ensures Shows(s1, m1[p := Idle][t := Idle], visited + {t}) && Untouched(visited, m1, m1[p := Idle][t := Idle])
  {
  }

  lemma {:induction false} RecvOverflowObserved(s: State, t: nat, from: Word, p: nat, visited: set<nat>, m1: seq<Role>)
    requires Chain(s, t, visited) && IpcInv(s) && RecvPeer(from) && from != NILTHREAD
    requires Shows(s, m1, visited + {t}) && m1[t] == Receiving(from, false)
    requires FindPartner(s, t, from, false) == Found(p)
    requires CopyPayload(s, p, t).Payload? && CopyPayload(s, p, t).code != NoError
    ensures RecvAccepted(s, t, from, visited, m1, RecvOverflow(CopyPayload(s, p, t).s, t, from, p))
  {
    var r := RecvOverflow(CopyPayload(s, p, t).s, t, from, p);
    FoundIsNamed(s, t, from, false);
    ChainGrows(s, t, visited, p);
    RecvFoundObserved(s, t, from, p, m1, visited);
    OverflowLeaves(s, t, from, p);
    OverflowShows(s, t, p, visited, m1, r.s);
    assert r.ev[1..] == [SendEnd(p, false), RecvEnd(t, false)];
  }

  lemma {:induction false} RecvLaterObserved(s: State, t: nat, from: Word, timeout: Time, visited: set<nat>,
      m1: seq<Role>)
    requires Chain(s, t, visited) && IsTime(timeout) && IpcInv(s) && from != NILTHREAD
    requires Shows(s, m1, visited + {t}) && m1[t] == Receiving(from, false)
    ensures RecvAccepted(s, t, from, visited, m1, RecvLater(s, t, from, timeout))
  {
    var r := RecvLater(s, t, from, timeout);
    NoTimeoutRefuses(s, t, timeout, RecvBlocked);
    if r.Phase? {
      assert r.ev[1..] == [];
      assert ObserveAll(s.ids, m1, []) == Some(m1);
    }
  }

  /** No message for t: the phase fails or waits. */
  lemma {:induction false} RecvUnservedObserved(s: State, t: nat, from: Word, timeout: Time, visited: set<nat>,
      m1: seq<Role>)
    requires Chain(s, t, visited) && IsTime(timeout) && IpcInv(s)
    requires from != NILTHREAD && Shows(s, m1, visited + {t}) && m1[t] == Receiving(from, false)
    requires IpcRecv(s, t, from, timeout, visited).Phase?
    requires var search := FindPartner(s, t, from, false);
      search.Found? ==> CopyPayload(s, search.partner, t).Payload? && CopyPayload(s, search.partner, t).code != NoError
    ensures RecvAccepted(s, t, from, visited, m1, IpcRecv(s, t, from, timeout, visited))
  {
    match FindPartner(s, t, from, false)
    case Found(p) => RecvOverflowObserved(s, t, from, p, visited, m1);
    case NotReady => RecvLaterObserved(s, t, from, timeout, visited, m1);
    case Nonexistent =>
      var r := IpcRecv(s, t, from, timeout, visited);
      assert r.ev[1..] == [RecvEnd(t, false)];
      RecvFailedObserved(s, t, from, m1, r.s, visited);
  }

  /** The receive phase of t after its beginning, with every receive it sets off. The receivers of
      visited, which have their message already, are not touched. */
  lemma {:induction false} RecvRestObserved(s: State, t: nat, from: Word, timeout: Time, visited: set<nat>,
      m1: seq<Role>)
    requires Chain(s, t, visited) && IsTime(timeout)
    requires IpcInv(s) && CurrentRuns(s) && t != s.current
    requires from != NILTHREAD && Shows(s, m1, visited + {t}) && m1[t] == Receiving(from, false)
    requires IpcRecv(s, t, from, timeout, visited).Phase?
    ensures RecvAccepted(s, t, from, visited, m1, IpcRecv(s, t, from, timeout, visited))
    decreases Remaining(s, visited), 1
  {
    var search := FindPartner(s, t, from, false);
    if search.Found? && CopyPayload(s, search.partner, t).code == NoError {
      RecvServedObserved(s, t, from, timeout, visited, m1, search.partner, CopyPayload(s, search.partner, t).s);
    } else {
      RecvUnservedObserved(s, t, from, timeout, visited, m1);
    }
  }

  lemma {:induction false} RecvObserved(s: State, t: nat, from: Word, timeout: Time, visited: set<nat>, m: seq<Role>)
    requires Chain(s, t, visited) && IsTime(timeout)
    requires IpcInv(s) && CurrentRuns(s) && t != s.current
    requires Shows(s, m, visited + {t}) && m[t] == Idle
    requires IpcRecv(s, t, from, timeout, visited).Phase?
    ensures var r := IpcRecv(s, t, from, timeout, visited);
      var o := ObserveAll(s.ids, m, r.ev);
      o.Some? && RecvLeaves(s, t, from, visited, m, r, o.value)
    decreases Remaining(s, visited), 2
  {
    if from != NILTHREAD {
      var m1 := m[t := Receiving(from, false)];
      RecvRestObserved(s, t, from, timeout, visited, m1);
      ObserveFirst(s.ids, m, RecvBegin(t, from), IpcRecv(s, t, from, timeout, visited).ev[1..]);
    }
  }

  lemma {:induction false} ReceiverFinishes(s: State, t: nat, from: Word, m: seq<Role>, visited: set<nat>, s1: State)
    requires IsThread(s, t) && t !in visited && Shows(s, m, visited + {t}) && m[t] == Receiving(from, true)
    requires SameThreadsAs(s, s1) && s1.states == s.states[t := Runnable] && s1.peers == s.peers
    ensures ObserveAll(s.ids, m, [RecvEnd(t, true)]) == Some(m[t := Idle]) && Shows(s1, m[t := Idle], visited)
  {
    ObserveOne(s.ids, m, RecvEnd(t, true));
  }

  /** do_ipc's switch on the result of the receive phase. */
  lemma {:induction false} AfterRecvObserved(s: State, t: nat, from: Word, visited: set<nat>, m: seq<Role>,
      sendEv: seq<Event>, m1: seq<Role>, recv: PhaseOutcome, m2: seq<Role>, r: Outcome)
    requires |m| == |m1| == |s.ids| && IsThread(s, t) && t !in visited
    requires recv.Phase? && SameThreadsAs(s, recv.s)
    requires ObserveAll(s.ids, m, sendEv) == Some(m1) && ObserveAll(s.ids, m1, recv.ev) == Some(m2)
    requires RecvLeaves(s, t, from, visited, m1, recv, m2)
    requires r == AfterRecv(t, from, sendEv, recv)
    ensures var o := ObserveAll(s.ids, m, r.ev);
      o.Some? && Shows(r.s, o.value, visited) && Untouched(visited, m1, o.value)
  {
    ObserveConcat(s.ids, m, sendEv, recv.ev);
    if recv.phase == PhaseDone && from != NILTHREAD {
      ReceiverFinishes(recv.s, t, from, m2, visited, r.s);
      ObserveConcat(s.ids, m, sendEv + recv.ev, [RecvEnd(t, true)]);
    } else {
      assert r.ev == sendEv + recv.ev;
    }
  }

  /** Every event of a call is accepted, and at its end every thread outside visited, t included, is
      as its state shows. */
  lemma {:induction false} ServedSenderObserved(s: State, t: nat, visited: set<nat>, m: seq<Role>)
    requires Chain(s, t, visited) && IpcInv(s) && CurrentRuns(s) && t != s.current
    requires Shows(s, m, visited + {t}) && m[t] == Idle
    requires DoIpc(s, t, true, visited).Done?
    ensures var r := DoIpc(s, t, true, visited);
      var o := ObserveAll(s.ids, m, r.ev);
      o.Some? && Shows(r.s, o.value, visited) && Untouched(visited, m, o.value)
    decreases Remaining(s, visited), 3
  {
    var regs := s.regs[t];
    RecvObserved(s, t, regs.r1, RecvTimeout(regs.r2), visited, m);
    var recv := IpcRecv(s, t, regs.r1, RecvTimeout(regs.r2), visited);
    AfterRecvObserved(s, t, regs.r1, visited, m, [], m, recv, ObserveAll(s.ids, m, recv.ev).value,
      DoIpc(s, t, true, visited));
  }

  /** After a send phase that ended the call. */
  lemma {:induction false} AfterSendObserved(s: State, t: nat, m: seq<Role>, send: PhaseOutcome, m1: seq<Role>,
      r: Outcome)
    requires |m| == |s.ids| && IsThread(s, t) && send.Phase? && SameThreadsAs(s, send.s)
    requires ObserveAll(s.ids, m, send.ev) == Some(m1) && Shows(send.s, m1, {t})
    requires m1[t] == if send.phase == PhaseWait then Sending(send.s.peers[t], false) else Idle
    requires r == match send.phase
      case PhaseError => Done(SetState(FlagError(send.s, t), t, Runnable), send.ev)
      case PhaseWait => Done(SetState(send.s, t, SendBlocked), send.ev)
      case PhaseDone => Halt
    ensures r.Done? ==> ObserveAll(s.ids, m, r.ev) == Some(m1) && Shows(r.s, m1, {})
  {
  }

  /** The receive phase of a call whose send phase is done. */
  lemma {:induction false} CallReceives(s: State, t: nat, from: Word, timeout: Time, m: seq<Role>, send: PhaseOutcome,
      m1: seq<Role>, r: Outcome)
    requires Chain(s, t, {}) && IpcInv(s) && CurrentRuns(s) && t != s.current && IsTime(timeout)
    requires |m| == |s.ids| && Shows(s, m1, {t}) && m1[t] == Idle
    requires send.Phase? && send.s == s && ObserveAll(s.ids, m, send.ev) == Some(m1) && r.Done?
    requires r == AfterRecv(t, from, send.ev, IpcRecv(s, t, from, timeout, {}))
    ensures var o := ObserveAll(s.ids, m, r.ev);
      o.Some? && Shows(r.s, o.value, {})
  {
    assert {} + {t} == {t};
    RecvObserved(s, t, from, timeout, {}, m1);
    var recv := IpcRecv(s, t, from, timeout, {});
    AfterRecvObserved(s, t, from, {}, m, send.ev, m1, recv, ObserveAll(s.ids, m1, recv.ev).value, r);
  }

  lemma {:induction false} CallEndsAtSend(s: State, t: nat, m: seq<Role>)
    requires Chain(s, t, {}) && IpcInv(s) && s.states[t] != RecvBlocked && s.states[t] != Active
    requires Shows(s, m, {t}) && m[t] == Idle
    requires var send := IpcSend(s, t, s.regs[t].r0, SendTimeout(s.regs[t].r2)); send.Phase? && send.phase != PhaseDone
    ensures var r := DoIpc(s, t, false, {});
      r.Done? && ObserveAll(s.ids, m, r.ev).Some? && Shows(r.s, ObserveAll(s.ids, m, r.ev).value, {})
  {
    var to, timeout := s.regs[t].r0, SendTimeout(s.regs[t].r2);
    var send := IpcSend(s, t, to, timeout);
    SendObserved(s, t, to, timeout, m);
    AfterSendObserved(s, t, m, send, ObserveAll(s.ids, m, send.ev).value, DoIpc(s, t, false, {}));
  }

  lemma {:induction false} CallGoesOn(s: State, t: nat, m: seq<Role>)
    requires Chain(s, t, {}) && IpcInv(s) && CurrentRuns(s) && t != s.current
    requires s.states[t] != RecvBlocked && s.states[t] != Active
    requires Shows(s, m, {t}) && m[t] == Idle
    requires var send := IpcSend(s, t, s.regs[t].r0, SendTimeout(s.regs[t].r2)); send.Phase? && send.phase == PhaseDone
    requires DoIpc(s, t, false, {}).Done?
    ensures var r := DoIpc(s, t, false, {});
      ObserveAll(s.ids, m, r.ev).Some? && Shows(r.s, ObserveAll(s.ids, m, r.ev).value, {})
  {
    var to, timeout := s.regs[t].r0, SendTimeout(s.regs[t].r2);
    var send := IpcSend(s, t, to, timeout);
    SendObserved(s, t, to, timeout, m);
    IpcSendKeeps(s, t, to, timeout);
    ChainKept(s, send.s, t, {});
    CallReceives(send.s, t, s.regs[t].r1, RecvTimeout(s.regs[t].r2), m, send, ObserveAll(s.ids, m, send.ev).value,
      DoIpc(s, t, false, {}));
  }

  /** The IPC of a caller: its events are accepted and leave the roles that the state shows. */
  lemma {:induction false} DoIpcObserved(s: State, t: nat, m: seq<Role>)
    requires Chain(s, t, {}) && IpcInv(s) && CurrentRuns(s) && t != s.current
    requires s.states[t] != RecvBlocked && s.states[t] != Active
    requires Shows(s, m, {t}) && m[t] == Idle
    requires DoIpc(s, t, false, {}).Done?
    ensures var r := DoIpc(s, t, false, {});
      ObserveAll(s.ids, m, r.ev).Some? && Shows(r.s, ObserveAll(s.ids, m, r.ev).value, {})
  {
    if IpcSend(s, t, s.regs[t].r0, SendTimeout(s.regs[t].r2)).phase == PhaseDone {
      CallGoesOn(s, t, m);
    } else {
      CallEndsAtSend(s, t, m);
    }
  }

  lemma {:induction false} TimeoutObserved(s: State, t: nat)
    requires IsThread(s, t)
    ensures var r := IpcTimeout(s, t);
      ObserveAll(s.ids, Roles(s), r.ev) == Some(Roles(r.s))
  {
    var r := IpcTimeout(s, t);
    if r.ev == [] {
      assert Roles(r.s) == Roles(s);
    } else {
      ObserveOne(s.ids, Roles(s), r.ev[0]);
      assert r.ev == [r.ev[0]];
      assert Roles(s)[t := Idle] == Roles(r.s);
    }
  }
}
