/** What the monitor's acceptance says of single phases: every phase that ends has been begun once and has had
    exactly one message if it ended well and none if it did not, and every message passes from an open send phase
    to an open receive phase that named each other and had none yet. */
module IpcPhases {
  import opened IpcDelivery
  import opened IpcExactlyOnce
  import opened Ipc
  import opened KernelState
  import opened Words

  predicate Begins(e: Event, w: nat) {
    (e.SendBegin? || e.RecvBegin?) && e.who == w
  }

  predicate Ends(e: Event, w: nat) {
    (e.SendEnd? || e.RecvEnd? || e.CutShort?) && e.who == w
  }

  ghost predicate NoneIn(ev: seq<Event>, b: nat, i: nat, kind: Kind, w: nat) {
    forall k :: b <= k < i <= |ev| ==> !Is(ev[k], kind, w)
  }

  /** Event j is the only one of its kind from b up to i. */
  ghost predicate OnlyIn(ev: seq<Event>, b: nat, j: nat, i: nat, kind: Kind, w: nat) {
    b <= j < i <= |ev| && Is(ev[j], kind, w) && NoneIn(ev, b, j, kind, w) && NoneIn(ev, j + 1, i, kind, w)
  }

  /** From b up to i there is exactly one event of the kind, or none. */
  ghost predicate OneOrNone(ev: seq<Event>, b: nat, i: nat, kind: Kind, w: nat, one: bool) {
    if one then exists j: nat :: OnlyIn(ev, b, j, i, kind, w) else NoneIn(ev, b, i, kind, w)
  }

  /** The phase of w that event b began is still open before event i. */
  ghost predicate OpenSince(ev: seq<Event>, b: nat, i: nat, w: nat) {
    b < i <= |ev| && Begins(ev[b], w) && forall k :: b < k < i ==> !Begins(ev[k], w) && !Ends(ev[k], w)
  }

  /** Before event i, w is in the send phase to dest begun at b, and its message is sent, or is not. */
  ghost predicate SendOpen(ev: seq<Event>, b: nat, i: nat, w: nat, dest: Word, sent: bool) {
    OpenSince(ev, b, i, w) && ev[b] == SendBegin(w, dest) && OneOrNone(ev, b, i, MessageFrom, w, sent)
  }

  ghost predicate RecvOpen(ev: seq<Event>, b: nat, i: nat, w: nat, spec: Word, got: bool) {
    OpenSince(ev, b, i, w) && ev[b] == RecvBegin(w, spec) && OneOrNone(ev, b, i, MessageTo, w, got)
  }

  /** Before event i, w is in no phase. */
  ghost predicate Closed(ev: seq<Event>, i: nat, w: nat)
    requires i <= |ev|
  {
    forall b :: 0 <= b < i && Begins(ev[b], w) ==> exists k :: b < k < i && Ends(ev[k], w)
  }

  ghost predicate CanSend(ids: seq<Ident>, ev: seq<Event>, i: nat, f: nat, t: nat)
    requires t < |ids|
  {
    exists b: nat, dest: Word :: SendOpen(ev, b, i, f, dest, false) && SameThreads(dest, ids[t].globalId)
  }

  ghost predicate CanReceive(ids: seq<Ident>, ev: seq<Event>, i: nat, f: nat, t: nat)
    requires f < |ids|
  {
    exists b: nat, spec: Word ::
      RecvOpen(ev, b, i, t, spec, false) && (spec == ANYTHREAD || SameThreads(spec, ids[f].globalId))
  }

  /** What event i says of the events before it. */
  ghost predicate Justified(ids: seq<Ident>, ev: seq<Event>, i: nat)
    requires i < |ev|
  {
    match ev[i]
    case SendBegin(w, _) => Closed(ev, i, w)
    case RecvBegin(w, _) => Closed(ev, i, w)
    case SendEnd(w, ok) => exists b: nat, dest: Word :: SendOpen(ev, b, i, w, dest, ok)
    case RecvEnd(w, ok) => exists b: nat, spec: Word :: RecvOpen(ev, b, i, w, spec, ok)
    case CutShort(w, receiving) =>
      if receiving then exists b: nat, spec: Word :: RecvOpen(ev, b, i, w, spec, false)
      else exists b: nat, dest: Word :: SendOpen(ev, b, i, w, dest, false)
    case Copied(f, t) => f < |ids| && t < |ids| && CanSend(ids, ev, i, f, t) && CanReceive(ids, ev, i, f, t)
    case PagerCopied(f, t) => f < |ids| && t < |ids| && CanSend(ids, ev, i, f, t) && Closed(ev, i, t)
    case PagerStarted(f, t) => f < |ids| && t < |ids| && CanSend(ids, ev, i, f, t) && Closed(ev, i, t)
  }

  // ---------- The monitor's roles and the events so far ----------

  /** The events before i bear out the role of w. */
  ghost predicate BornOut(ev: seq<Event>, i: nat, w: nat, role: Role)
    requires i <= |ev|
  {
    match role
    case Idle => Closed(ev, i, w)
    case Sending(dest, sent) => exists b: nat :: SendOpen(ev, b, i, w, dest, sent)
    case Receiving(spec, got) => exists b: nat :: RecvOpen(ev, b, i, w, spec, got)
  }

  /** Acceptance goes event by event. */
  lemma {:induction false} PrefixObserved(ids: seq<Ident>, m: seq<Role>, ev: seq<Event>, i: nat)
    requires |m| == |ids| && i < |ev| && ObserveAll(ids, m, ev).Some?
    ensures ObserveAll(ids, m, ev[..i]).Some?
    ensures var m1 := ObserveAll(ids, m, ev[..i]).value;
      Observe(ids, m1, ev[i]).Some? && ObserveAll(ids, m, ev[..i + 1]) == Observe(ids, m1, ev[i])
    decreases |ev|
  {
    if i == 0 {
      assert ev[..1] == [ev[0]] && ev[..0] == [];
      ObserveOne(ids, m, ev[0]);
    } else {
      PrefixObserved(ids, Observe(ids, m, ev[0]).value, ev[1..], i - 1);
      assert ev[..i][1..] == ev[1..][..i - 1] && ev[..i + 1][1..] == ev[1..][..i];
    }
  }

  lemma {:induction false} OneMore(ev: seq<Event>, b: nat, i: nat, kind: Kind, w: nat, one: bool)
    requires b <= i < |ev| && OneOrNone(ev, b, i, kind, w, one)
    ensures !Is(ev[i], kind, w) ==> OneOrNone(ev, b, i + 1, kind, w, one)
    ensures Is(ev[i], kind, w) && !one ==> OneOrNone(ev, b, i + 1, kind, w, true)
  {
    if one && !Is(ev[i], kind, w) {
      var j: nat :| OnlyIn(ev, b, j, i, kind, w);
      assert OnlyIn(ev, b, j, i + 1, kind, w);
    } else if !one && Is(ev[i], kind, w) {
      assert OnlyIn(ev, b, i, i + 1, kind, w);
    }
  }

  /** An event that neither begins nor ends a phase of w leaves it open, the message apart. */
  lemma {:induction false} StaysOpen(ev: seq<Event>, i: nat, w: nat, role: Role, role': Role)
    requires i < |ev| && BornOut(ev, i, w, role) && !Begins(ev[i], w) && !Ends(ev[i], w)
    requires match role
      case Idle => role' == Idle
      case Sending(dest, sent) =>
        role' == Sending(dest, sent || Is(ev[i], MessageFrom, w)) && !(sent && Is(ev[i], MessageFrom, w))
      case Receiving(spec, got) =>
        role' == Receiving(spec, got || Is(ev[i], MessageTo, w)) && !(got && Is(ev[i], MessageTo, w))
    ensures BornOut(ev, i + 1, w, role')
  {
    match role
    case Idle =>
    case Sending(dest, sent) =>
      var b: nat :| SendOpen(ev, b, i, w, dest, sent);
      OneMore(ev, b, i, MessageFrom, w, sent);
      assert SendOpen(ev, b, i + 1, w, dest, sent || Is(ev[i], MessageFrom, w));
    case Receiving(spec, got) =>
      var b: nat :| RecvOpen(ev, b, i, w, spec, got);
      OneMore(ev, b, i, MessageTo, w, got);
      assert RecvOpen(ev, b, i + 1, w, spec, got || Is(ev[i], MessageTo, w));
  }

  lemma {:induction false} RoleBornOutStep(ids: seq<Ident>, ev: seq<Event>, i: nat, m: seq<Role>, m': seq<Role>, w: nat)
    requires |m| == |ids| && w < |m| && i < |ev| && Observe(ids, m, ev[i]) == Some(m') && BornOut(ev, i, w, m[w])
    ensures BornOut(ev, i + 1, w, m'[w])
  {
    if Begins(ev[i], w) {
      if ev[i].SendBegin? {
        assert SendOpen(ev, i, i + 1, w, ev[i].dest, false);
      } else {
        assert RecvOpen(ev, i, i + 1, w, ev[i].spec, false);
      }
    } else if !Ends(ev[i], w) {
      StaysOpen(ev, i, w, m[w], m'[w]);
    }
  }

  /** From idle roles, the events before i bear out every role that the monitor shows there. */
  lemma {:induction false} RolesBornOut(ids: seq<Ident>, m: seq<Role>, ev: seq<Event>, i: nat, w: nat)
    requires |m| == |ids| && w < |m| && i <= |ev| && ObserveAll(ids, m, ev).Some?
    requires m[w] == Idle
    ensures ObserveAll(ids, m, ev[..i]).Some? && BornOut(ev, i, w, ObserveAll(ids, m, ev[..i]).value[w])
    decreases i
  {
    if i == 0 {
      assert ev[..0] == [];
    } else {
      RolesBornOut(ids, m, ev, i - 1, w);
      PrefixObserved(ids, m, ev, i - 1);
      RoleBornOutStep(ids, ev, i - 1, ObserveAll(ids, m, ev[..i - 1]).value, ObserveAll(ids, m, ev[..i]).value, w);
    }
  }

  /** Every accepted event is justified by those before it. */
  lemma {:induction false} AcceptedIsJustified(ids: seq<Ident>, m: seq<Role>, ev: seq<Event>, i: nat)
    requires |m| == |ids| && ObserveAll(ids, m, ev).Some? && i < |ev|
    requires forall w :: 0 <= w < |m| ==> m[w] == Idle
    ensures Justified(ids, ev, i)
  {
    PrefixObserved(ids, m, ev, i);
    var m1 := ObserveAll(ids, m, ev[..i]).value;
    forall w | 0 <= w < |m|
      ensures BornOut(ev, i, w, m1[w])
    {
      RolesBornOut(ids, m, ev, i, w);
    }
    match ev[i]
    case SendBegin(w, _) => assert BornOut(ev, i, w, m1[w]);
    case RecvBegin(w, _) => assert BornOut(ev, i, w, m1[w]);
    case SendEnd(w, ok) => assert BornOut(ev, i, w, m1[w]);
    case RecvEnd(w, ok) => assert BornOut(ev, i, w, m1[w]);
    case CutShort(w, _) => assert BornOut(ev, i, w, m1[w]);
    case Copied(f, t) => assert BornOut(ev, i, f, m1[f]) && BornOut(ev, i, t, m1[t]);
    case PagerCopied(f, t) => assert BornOut(ev, i, f, m1[f]) && BornOut(ev, i, t, m1[t]);
    case PagerStarted(f, t) => assert BornOut(ev, i, f, m1[f]) && BornOut(ev, i, t, m1[t]);
  }
}
