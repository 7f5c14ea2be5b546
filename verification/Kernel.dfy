/** The kernel's own code: the global tables of kern/thread.c, updated in place, and the functions of
    kern/thread.c, kern/syscall/ipc.c and kern/syscall.c that work on them. Each method is tied to the
    function on states that specifies it. */
module Kernel {
  import opened Words
  import opened ReadyHeap
  import opened KernelState
  import opened MessageCopy
  import opened Ipc
  import opened L4Time
  import opened Memory
  import opened KernelSystem
  import ThreadMap

  /** struct tcb_t. */
  datatype Tcb = Tcb(id: Ident, state: ThreadState, peer: Word, utcb: Utcb, regs: Regs, entry: Entry)

  function Project(tcbs: seq<Tcb>, heap: seq<nat>, current: nat, caller: nat, pending: bool, spaces: nat,
      mem: seq<Byte>): (s: State)
    ensures |s.ids| == |tcbs|
    ensures forall i :: 0 <= i < |tcbs| ==>
      tcbs[i] == Tcb(s.ids[i], s.states[i], s.peers[i], s.utcbs[i], s.regs[i], s.entries[i])
    ensures s.heap == heap && s.current == current && s.caller == caller && s.pending == pending &&
      s.spaces == spaces && s.mem == mem
  {
    var n := |tcbs|;
    RawState(
      seq(n, i requires 0 <= i < n => tcbs[i].id),
      seq(n, i requires 0 <= i < n => tcbs[i].state),
      seq(n, i requires 0 <= i < n => tcbs[i].peer),
      seq(n, i requires 0 <= i < n => tcbs[i].utcb),
      seq(n, i requires 0 <= i < n => tcbs[i].regs),
      seq(n, i requires 0 <= i < n => tcbs[i].entry),
      heap, current, caller, pending, spaces, mem)
  }

  lemma {:induction false} ProjectAppend(tcbs: seq<Tcb>, tcb: Tcb, s: State)
    requires s == Project(tcbs, s.heap, s.current, s.caller, s.pending, s.spaces, s.mem)
    ensures Project(tcbs + [tcb], s.heap, s.current, s.caller, s.pending, s.spaces, s.mem) ==
      s.(ids := s.ids + [tcb.id], states := s.states + [tcb.state], peers := s.peers + [tcb.peer],
         utcbs := s.utcbs + [tcb.utcb], regs := s.regs + [tcb.regs], entries := s.entries + [tcb.entry])
  {
    var s' := Project(tcbs + [tcb], s.heap, s.current, s.caller, s.pending, s.spaces, s.mem);
    assert s'.ids == s.ids + [tcb.id];
    assert s'.states == s.states + [tcb.state];
    assert s'.peers == s.peers + [tcb.peer];
    assert s'.utcbs == s.utcbs + [tcb.utcb];
    assert s'.regs == s.regs + [tcb.regs];
    assert s'.entries == s.entries + [tcb.entry];
  }

  lemma {:induction false} ProjectUpdate(tcbs: seq<Tcb>, t: nat, tcb: Tcb, s: State)
    requires t < |tcbs| && s == Project(tcbs, s.heap, s.current, s.caller, s.pending, s.spaces, s.mem)
    ensures Project(tcbs[t := tcb], s.heap, s.current, s.caller, s.pending, s.spaces, s.mem) ==
      s.(ids := s.ids[t := tcb.id], states := s.states[t := tcb.state], peers := s.peers[t := tcb.peer],
         utcbs := s.utcbs[t := tcb.utcb], regs := s.regs[t := tcb.regs], entries := s.entries[t := tcb.entry])
  {
    var s' := Project(tcbs[t := tcb], s.heap, s.current, s.caller, s.pending, s.spaces, s.mem);
    assert s'.ids == s.ids[t := tcb.id];
    assert s'.states == s.states[t := tcb.state];
    assert s'.peers == s.peers[t := tcb.peer];
    assert s'.utcbs == s.utcbs[t := tcb.utcb];
    assert s'.regs == s.regs[t := tcb.regs];
    assert s'.entries == s.entries[t := tcb.entry];
  }

  datatype Timer = TimerArmed | TimerRefused | TimerPanicked

  class Kernel {
    const tcbStore: array<Tcb>
    const threadList: array<nat>
    var threadCount: nat
    const queue: ReadyQueue
    var currentThreadIdx: nat
    var caller: nat
    var softirqPending: bool
    var spaces: nat
    const mem: array<Byte>

    ghost function Repr(): set<object> {
      {this, tcbStore, threadList, queue, queue.data, mem}
    }

    /** Threads are listed in the order in which they were created, which is the order of their numbers;
        unused entries of thread_list are zero. One entry stays unused: with all sixteen in use a
        search can run past the list's end. */
    ghost predicate Valid()
      reads Repr()
    {
      && Shaped()
      && (forall i :: 0 <= i < THREAD_MAX_COUNT ==> threadList[i] == (if i < threadCount then i else 0))
      && (forall i, j :: 0 <= i < j < threadCount ==>
        ThreadNo(tcbStore[i].id.globalId) < ThreadNo(tcbStore[j].id.globalId))
    }

    ghost predicate Shaped()
      reads Repr()
    {
      && tcbStore.Length == THREAD_MAX_COUNT && threadList.Length == THREAD_MAX_COUNT
      && threadCount < THREAD_MAX_COUNT
      && queue.Valid() && queue.data != threadList
      && (mem as object) !in {tcbStore as object, threadList, queue.data}
      && (tcbStore as object) !in {threadList as object, queue.data}
    }

    function State(): (s: KernelState.State)
      reads Repr()
      requires Valid()
      ensures |s.ids| == threadCount
      ensures s.heap == queue.Contents() && s.current == currentThreadIdx && s.caller == caller &&
        s.pending == softirqPending
      ensures s.spaces == spaces && s.mem == mem[..]
    {
      Project(tcbStore[..threadCount], queue.Contents(), currentThreadIdx, caller, softirqPending, spaces, mem[..])
    }

    /** init_thread_system, with the memory that IPC copies strings in. */
    constructor (memory: seq<Byte>)
      ensures Valid() && threadCount == 0 && mem[..] == memory && fresh(Repr())
      ensures State().heap == [] && currentThreadIdx == NOBODY && !softirqPending
    {
      var blank := Tcb(Ident(0, 0, 0, 0, 0, 0), Inactive, 0, Utcb(Tag(0, 0, 0, 0), seq(24, _ => 0), CallFailure(0), 0),
                       Regs(0, 0, 0, 0, 0, 0), Entry(0, 0, 0, 0));
      tcbStore := new Tcb[THREAD_MAX_COUNT](_ => blank);
      threadList := new nat[THREAD_MAX_COUNT](_ => 0);
      threadCount := 0;
      queue := new ReadyQueue();
      currentThreadIdx := NOBODY;
      caller := 0;
      softirqPending := false;
      spaces := 0;
      mem := new Byte[|memory|](i requires 0 <= i < |memory| => memory[i]);
      new;
      assert mem[..] == memory;
    }

    // ---------- Writing one record ----------

    method SetTcb(t: nat, tcb: Tcb)
      requires Valid() && t < threadCount && tcb.id.globalId == tcbStore[t].id.globalId
      modifies tcbStore
      ensures Valid() && tcbStore[..threadCount] == old(tcbStore[..threadCount])[t := tcb]
      ensures State() == old(State()).(
        ids := old(State()).ids[t := tcb.id], states := old(State()).states[t := tcb.state],
        peers := old(State()).peers[t := tcb.peer], utcbs := old(State()).utcbs[t := tcb.utcb],
        regs := old(State()).regs[t := tcb.regs], entries := old(State()).entries[t := tcb.entry])
    {
      ghost var s := State();
      ghost var tcbs := tcbStore[..threadCount];
      tcbStore[t] := tcb;
      assert tcbStore[..threadCount] == tcbs[t := tcb];
      ProjectUpdate(tcbs, t, tcb, s);
    }

    /** Writing a field's own value changes nothing. */
    static lemma {:induction false} SameField<T>(a: seq<T>, t: nat)
      requires t < |a|
      ensures a[t := a[t]] == a
    {
    }

    lemma {:induction false} SameFields(t: nat)
      requires Valid() && t < threadCount
      ensures var s, tcb := State(), tcbStore[t];
        s.ids[t := tcb.id] == s.ids && s.states[t := tcb.state] == s.states && s.peers[t := tcb.peer] == s.peers &&
        s.utcbs[t := tcb.utcb] == s.utcbs && s.regs[t := tcb.regs] == s.regs && s.entries[t := tcb.entry] == s.entries
    {
      assert tcbStore[..threadCount][t] == tcbStore[t];
      var s := State();
      SameField(s.ids, t);
      SameField(s.states, t);
      SameField(s.peers, t);
      SameField(s.utcbs, t);
      SameField(s.regs, t);
      SameField(s.entries, t);
    }

    method WriteUtcb(t: nat, utcb: Utcb)
      requires Valid() && t < threadCount
      modifies tcbStore
      ensures Valid() && State() == SetUtcb(old(State()), t, utcb)
    {
      SameFields(t);
      SetTcb(t, tcbStore[t].(utcb := utcb));
    }

    method WritePeer(t: nat, peer: Word)
      requires Valid() && t < threadCount
      modifies tcbStore
      ensures Valid() && State() == SetPeer(old(State()), t, peer)
    {
      SameFields(t);
      SetTcb(t, tcbStore[t].(peer := peer));
    }

    method WriteRegs(t: nat, regs: Regs)
      requires Valid() && t < threadCount
      modifies tcbStore
      ensures Valid() && State() == old(State()).(regs := old(State()).regs[t := regs])
    {
      SameFields(t);
      SetTcb(t, tcbStore[t].(regs := regs));
    }

    method WriteEntry(t: nat, entry: Entry)
      requires Valid() && t < threadCount
      modifies tcbStore
      ensures Valid() && State() == old(State()).(entries := old(State()).entries[t := entry])
    {
      SameFields(t);
      SetTcb(t, tcbStore[t].(entry := entry));
    }

    /** utcb->error := error. */
    method WriteError(t: nat, error: ErrorWord)
      requires Valid() && t < threadCount
      modifies tcbStore
      ensures Valid() && State() == SetError(old(State()), t, error)
    {
      assert tcbStore[t] == tcbStore[..threadCount][t];
      WriteUtcb(t, tcbStore[t].utcb.(error := error));
    }

    /** set_ipc_error. */
    method SetIpcError(t: nat)
      requires Valid() && t < threadCount
      modifies tcbStore
      ensures Valid() && State() == FlagError(old(State()), t)
    {
      assert tcbStore[t] == tcbStore[..threadCount][t];
      WriteUtcb(t, tcbStore[t].utcb.(tag := WithErrorFlag(tcbStore[t].utcb.tag)));
    }

    // ---------- kern/thread.c ----------

    function PriorityTable(): (p: seq<nat>)
      reads Repr()
      requires Valid()
      ensures p == Priorities(State().ids)
    {
      var p := seq(threadCount, i requires 0 <= i < threadCount && Valid() reads Repr() => tcbStore[i].id.priority);
      assert p == Priorities(State().ids) by {
        forall i | 0 <= i < threadCount
          ensures p[i] == Priorities(State().ids)[i]
        {
          assert tcbStore[i] == tcbStore[..threadCount][i];
        }
      }
      p
    }

    /** thread_schedule_insert, thread_schedule_delete and thread_schedule_pop on the one ready heap. */
    method HeapInsert(t: nat)
      requires Valid()
      modifies queue, queue.data
      ensures Valid() && State() == old(State()).(heap := Insert(Priorities(old(State()).ids), old(State()).heap, t))
    {
      var _ := queue.Push(PriorityTable(), t);
    }

    method HeapDelete(idx: nat)
      requires Valid() && idx < queue.size
      modifies queue, queue.data
      ensures Valid() && State() == old(State()).(heap := Delete(Priorities(old(State()).ids), old(State()).heap, idx))
    {
      queue.DeleteAt(PriorityTable(), idx);
    }

    method HeapPop()
      requires Valid() && queue.size > 0
      modifies queue, queue.data
      ensures Valid() && State() == old(State()).(heap := Delete(Priorities(old(State()).ids), old(State()).heap, 0))
    {
      queue.Pop(PriorityTable());
    }

    /** The heap's part of set_thread_state. */
    method UpdateHeap(t: nat, st: ThreadState)
      requires Valid() && t < threadCount
      modifies queue, queue.data
      ensures Valid() && State() == old(State()).(heap := HeapAfter(old(State()), t, st))
    {
      Record(t);
      if st == Runnable && tcbStore[t].state != Runnable {
        HeapInsert(t);
      } else if st != Runnable && tcbStore[t].state == Runnable {
        var heapIdx := queue.Find(t);
        if heapIdx != HEAP_FAIL {
          HeapDelete(heapIdx);
        }
      }
    }

    method SetThreadState(t: nat, st: ThreadState)
      requires Valid() && t < threadCount
      modifies tcbStore, queue, queue.data
      ensures Valid() && State() == SetState(old(State()), t, st)
    {
      UpdateHeap(t, st);
      SameFields(t);
      SetTcb(t, tcbStore[t].(state := st));
    }

    /** A record read from the table is the state's. */
    lemma {:induction false} Record(t: nat)
      requires Valid() && t < threadCount
      ensures var s := State();
        tcbStore[t] == Tcb(s.ids[t], s.states[t], s.peers[t], s.utcbs[t], s.regs[t], s.entries[t])
    {
      assert tcbStore[t] == tcbStore[..threadCount][t];
    }

    // ---------- Thread lookup ----------

    /** The thread number that entry i of thread_list shows. */
    function ShownNo(i: nat): nat
      reads Repr()
      requires Valid() && i < THREAD_MAX_COUNT
    {
      ThreadNo(tcbStore[threadList[i]].id.globalId)
    }

    ghost function ShownNos(): (nos: seq<nat>)
      reads Repr()
      requires Valid()
      ensures |nos| == ThreadMap.SLOTS
      ensures forall i :: 0 <= i < THREAD_MAX_COUNT ==> nos[i] == ShownNo(i)
    {
      seq(ThreadMap.SLOTS, i requires 0 <= i < ThreadMap.SLOTS && Valid() reads Repr() => ShownNo(i))
    }

    /** The binary search proper; nos is what it reads through the two tables. */
    static method SearchList(list: array<nat>, tcbs: array<Tcb>, n: nat, threadNo: nat, ghost nos: seq<nat>)
        returns (idx: nat)
      requires list.Length == tcbs.Length == |nos| == THREAD_MAX_COUNT && n < THREAD_MAX_COUNT
      requires forall i :: 0 <= i < THREAD_MAX_COUNT ==> list[i] < THREAD_MAX_COUNT
      requires forall i :: 0 <= i < THREAD_MAX_COUNT ==> ThreadNo(tcbs[list[i]].id.globalId) == nos[i]
      ensures idx == ThreadMap.ListFind(nos, n, threadNo)
    {
      ghost var goal := ThreadMap.ListFind(nos, n, threadNo);
      var high, low := n, 0;
      while true
        invariant low <= high <= n && ThreadMap.Search(nos, n, threadNo, low, high) == goal
        decreases high - low
      {
        var mid := (low + high) / 2;
        var currentNo := ThreadNo(tcbs[list[mid]].id.globalId);
        assert currentNo == nos[mid];
        if currentNo == threadNo {
          return mid;
        } else if currentNo < threadNo {
          if mid == n {
            return mid;
          }
          low := mid + 1;
        } else {
          if mid == 0 {
            return 0;
          }
          high := mid - 1;
        }
        if !(low < high) {
          return low;
        }
      }
    }

    method ThreadListFind(globalId: Word) returns (idx: nat)
      requires Valid()
      ensures idx == ThreadMap.ListFind(ShownNos(), threadCount, ThreadNo(globalId))
    {
      ghost var nos := ShownNos();
      idx := SearchList(threadList, tcbStore, threadCount, ThreadNo(globalId), nos);
      assert nos == ShownNos();
    }

    /** The table of numbers that the search needs. */
    lemma {:induction false} ShownNosSorted()
      requires Valid()
      ensures var nos := ShownNos();
        (forall i :: 0 <= i < threadCount ==> nos[i] == ThreadNo(State().ids[i].globalId)) &&
        (forall i :: threadCount <= i < ThreadMap.SLOTS ==> nos[i] == nos[0]) &&
        ThreadMap.Sorted(nos, threadCount)
    {
      forall i | 0 <= i < threadCount
        ensures ShownNos()[i] == ThreadNo(State().ids[i].globalId)
      {
        Record(i);
      }
    }

    /** The slot that the search ends at shows the number looked for just when a thread has it, and
        then it is that thread's. */
    lemma {:induction false} SearchIsLookup(globalId: Word)
      requires Valid() && threadCount > 0
      ensures var no, nos := ThreadNo(globalId), ShownNos();
        ThreadMap.ListFind(nos, threadCount, no) < THREAD_MAX_COUNT &&
        ThreadMap.MapFind(nos, threadCount, no) == Lookup(State().ids, globalId)
    {
      var no, nos, ids := ThreadNo(globalId), ShownNos(), State().ids;
      ShownNosSorted();
      ThreadMap.LookupExact(nos, threadCount, no);
      match Lookup(ids, globalId)
      case Some(p) => assert nos[p] == no;
      case None =>
        forall p | 0 <= p < threadCount
          ensures nos[p] != no
        {
          assert !SameThreads(ids[p].globalId, globalId);
        }
    }

    /** find_thread_by_global_id. */
    method FindThreadByGlobalId(globalId: Word) returns (r: Option<nat>)
      requires Valid() && threadCount > 0
      ensures r == Lookup(State().ids, globalId)
    {
      var idx := ThreadListFind(globalId);
      SearchIsLookup(globalId);
      assert ShownNos()[idx] == ShownNo(idx);
      if ShownNo(idx) != ThreadNo(globalId) {
        r := None;
      } else {
        r := Some(threadList[idx]);
      }
    }

    // ---------- Looking for a partner ----------

    method IsViableIpcPartner(target: nat, partner: nat) returns (b: bool)
      requires Valid() && target < threadCount && partner < threadCount
      ensures b == IsViable(State(), target, partner)
    {
      Record(target);
      Record(partner);
      var from := tcbStore[partner].peer;
      if from == ANYTHREAD {
        return true;
      }
      if from == ANYLOCALTHREAD && tcbStore[partner].id.space == tcbStore[target].id.space {
        return true;
      }
      return from == tcbStore[target].id.globalId || from == tcbStore[target].id.localId;
    }

    /** The test that both searches make of one thread. */
    method IsReadyPartner(target: nat, sending: bool, partner: nat) returns (b: bool)
      requires Valid() && target < threadCount && partner < threadCount
      ensures b == IsPartner(State(), target, Blocked(sending), partner)
    {
      Record(partner);
      b := IsViableIpcPartner(target, partner);
      b := tcbStore[partner].state == (if sending then RecvBlocked else SendBlocked) && b;
    }

    method FindIpcPartnerAny(target: nat, sending: bool) returns (r: Search)
      requires Valid() && target < threadCount
      ensures r == FindAny(State(), target, Blocked(sending), 0)
    {
      ghost var s := State();
      ghost var goal := FindAny(s, target, Blocked(sending), 0);
      var i := 0;
      while i < threadCount
        invariant i <= |s.ids| == threadCount && State() == s
        invariant FindAny(s, target, Blocked(sending), i) == goal
      {
        var current := threadList[i];
        var ready := IsReadyPartner(target, sending, current);
        if ready {
          return Found(current);
        }
        i := i + 1;
      }
      return NotReady;
    }

    method FindIpcPartner(target: nat, who: Word, sending: bool) returns (r: Search)
      requires Valid() && target < threadCount
      ensures r == FindPartner(State(), target, who, sending)
    {
      if who == ANYTHREAD {
        r := FindIpcPartnerAny(target, sending);
        return;
      }
      var tcb := FindThreadByGlobalId(who);
      if tcb == None {
        return Nonexistent;
      }
      var p := tcb.value;
      Record(p);
      Record(target);
      var ready := IsReadyPartner(target, sending, p);
      if ready {
        return Found(p);
      }
      var pager := FindThreadByGlobalId(tcbStore[p].id.pager);
      if sending && tcbStore[p].state == Active && pager.Some? {
        Record(pager.value);
        if tcbStore[pager.value].id.space == tcbStore[target].id.space {
          return PagerMsg(p);
        }
      }
      return NotReady;
    }

    // ---------- copy_payload ----------

    /** memcpy within the memory; false when a range leaves it. */
    method MemoryCopy(dst: nat, src: nat, len: nat) returns (ok: bool)
      requires Valid()
      modifies mem
      ensures Valid()
      ensures match MemCopy(old(mem[..]), dst, src, len)
        case None => !ok && State() == old(State())
        case Some(m) => ok && State() == old(State()).(mem := m)
    {
      if src + len > mem.Length || dst + len > mem.Length {
        return false;
      }
      Memcpy(mem, dst, src, len);
      return true;
    }

    method WriteWords(t: nat, words: Registers)
      requires Valid() && t < threadCount
      modifies tcbStore
      ensures Valid() && State() == SetUtcb(old(State()), t, old(State()).utcbs[t].(words := words))
    {
      Record(t);
      WriteUtcb(t, tcbStore[t].utcb.(words := words));
    }

    /** One string item, at the same offset o on both sides. */
    method CopyStringItem(from: nat, to: nat, accepts: bool, o: nat, br: nat) returns (r: Option<IpcError>)
      requires Valid() && from < threadCount && to < threadCount && from != to && o <= MR_COUNT
      modifies tcbStore, mem
      ensures Valid()
      ensures var s := old(State());
        match CopyString(s.utcbs[from].words, s.utcbs[to].words, s.mem, accepts, o, br)
        case ItemsStuck => r == None
        case ItemsOverflow(_, _) => r == Some(MessageOverflow) && State() == s
        case ItemsDone(words, m, _) =>
          r == Some(NoError) && State() == SetUtcb(s, to, s.utcbs[to].(words := words)).(mem := m)
    {
      Record(from);
      Record(to);
      var item, itemPtr := tcbStore[from].utcb.words[o], tcbStore[from].utcb.words[o + 1];
      if !accepts {
        return Some(MessageOverflow);
      }
      if ItemCompound(item) || MR_COUNT + br + 1 >= UTCB_WORDS {
        return None;
      }
      var toItem, toPtr := tcbStore[to].utcb.words[MR_COUNT + br], tcbStore[to].utcb.words[MR_COUNT + br + 1];
      if ItemCompound(toItem) {
        return None;
      }
      if ItemLength(toItem) < ItemLength(item) {
        return Some(MessageOverflow);
      }
      var copied := MemoryCopy(toPtr, itemPtr, ItemLength(item));
      if !copied {
        return None;
      }
      Record(to);
      WriteWords(to, tcbStore[to].utcb.words[o := item][o + 1 := toPtr]);
      return Some(NoError);
    }

    /** The state s with the receiver's registers and the memory as the copy has them so far. */
    static ghost function Midway(s: KernelState.State, to: nat, words: Registers, m: seq<Byte>): KernelState.State
      requires to < |s.ids|
    {
      SetUtcb(s, to, s.utcbs[to].(words := words)).(mem := m)
    }

    /** One item, at the same offset on both sides. */
    method CopyTypedItem(from: nat, to: nat, accepts: bool, fromOffset: nat, toOffset: nat, br: nat)
        returns (r: Option<IpcError>)
      requires Valid() && from < threadCount && to < threadCount && from != to && fromOffset == toOffset <= MR_COUNT
      modifies tcbStore, mem
      ensures Valid()
      ensures var s := old(State());
        match CopyItem(s.utcbs[from].words, s.utcbs[to].words, s.mem, accepts, fromOffset, br)
        case ItemsStuck => r == None
        case ItemsOverflow(_, _) => r == Some(MessageOverflow) && State() == s
        case ItemsDone(words, m, _) => r == Some(NoError) && State() == Midway(s, to, words, m)
    {
      Record(from);
      Record(to);
      var item := tcbStore[from].utcb.words[fromOffset];
      if ItemType(item) == MAP_ITEM {
        var address := tcbStore[from].utcb.words[fromOffset + 1];
        WriteWords(to, tcbStore[to].utcb.words[toOffset := item][toOffset + 1 := address]);
        return Some(NoError);
      } else if ItemType(item) == STRING_ITEM {
        r := CopyStringItem(from, to, accepts, fromOffset, br);
      } else {
        return None;
      }
    }

    /** Copying on from a state that is midway already. */
    static lemma {:induction false} MidwayOn(s: KernelState.State, to: nat, words: Registers, m: seq<Byte>,
        words': Registers, m': seq<Byte>)
      requires to < |s.ids|
      ensures Midway(Midway(s, to, words, m), to, words', m') == Midway(s, to, words', m')
      ensures Midway(s, to, s.utcbs[to].words, s.mem) == s
    {
      assert s.utcbs[to := s.utcbs[to].(words := words)][to := s.utcbs[to].(words := words')] ==
        s.utcbs[to := s.utcbs[to].(words := words')];
      SameField(s.utcbs, to);
    }

    /** One turn of the loop, seen from the state s at its start. */
    method CopyTurn(from: nat, to: nat, accepts: bool, o: nat, br: nat, end: nat, ghost s: KernelState.State,
        ghost words: Registers, ghost m: seq<Byte>) returns (r: Option<IpcError>, br': nat, ghost words': Registers,
        ghost m': seq<Byte>)
      requires Valid() && from < threadCount && to < threadCount && from != to && o < end <= MR_COUNT + 1
      requires |s.ids| == threadCount && State() == Midway(s, to, words, m)
      modifies tcbStore, mem
      ensures Valid()
      ensures var source := s.utcbs[from].words;
        var whole := CopyItems(source, words, m, accepts, o, br, end);
        match r
        case None => whole == ItemsStuck
        case Some(code) =>
          (code == NoError || code == MessageOverflow) && State() == Midway(s, to, words', m') &&
          whole ==
            if code == NoError then CopyItems(source, words', m', accepts, o + 2, br', end)
            else ItemsOverflow(words', m')
    {
      Record(from);
      assert State().utcbs[from] == s.utcbs[from] && State().utcbs[to].words == words;
      var item := tcbStore[from].utcb.words[o];
      ghost var step := CopyItem(s.utcbs[from].words, words, m, accepts, o, br);
      r := CopyTypedItem(from, to, accepts, o, o, br);
      br' := NextBuffer(item, br);
      words', m' := words, m;
      if r == Some(NoError) {
        words', m' := step.words, step.mem;
        MidwayOn(s, to, words, m, words', m');
      }
    }

    /** The loop's result and the state it leaves, by the specified items; None where they are stuck. */
    static ghost predicate ItemsCopied(
      items: ItemsResult, s: KernelState.State, to: nat, r: Option<IpcError>, offset: nat, now: KernelState.State)
    {
      match items
      case ItemsStuck => r == None
      case ItemsOverflow(words, m) =>
        r == Some(MessageOverflow) && to < |s.ids| && |words| == UTCB_WORDS && now == Midway(s, to, words, m)
      case ItemsDone(words, m, o) =>
        r == Some(NoError) && offset == o && to < |s.ids| && |words| == UTCB_WORDS && now == Midway(s, to, words, m)
    }

    /** The loop over the typed items, with an offset for each side; the two stay equal. */
    method CopyTypedItems(from: nat, to: nat, accepts: bool, start: nat, end: nat)
        returns (r: Option<IpcError>, toOffset: nat)
      requires Valid() && from < threadCount && to < threadCount && from != to && end <= MR_COUNT + 1
      modifies tcbStore, mem
      ensures Valid()
      ensures var s := old(State());
        ItemsCopied(CopyItems(s.utcbs[from].words, s.utcbs[to].words, s.mem, accepts, start, 1, end), s, to, r,
          toOffset, State())
    {
      ghost var s := State();
      ghost var source := s.utcbs[from].words;
      ghost var words: Registers, m := s.utcbs[to].words, s.mem;
      ghost var goal := CopyItems(source, words, m, accepts, start, 1, end);
      MidwayOn(s, to, words, m, words, m);
      var fromOffset, brOffset := start, 1;
      toOffset := start;
      while fromOffset < end
        invariant Valid() && threadCount == old(threadCount) && toOffset == fromOffset
        invariant State() == Midway(s, to, words, m)
        invariant CopyItems(source, words, m, accepts, fromOffset, brOffset, end) == goal
        decreases end + 2 - fromOffset
      {
        r, brOffset, words, m := CopyTurn(from, to, accepts, fromOffset, brOffset, end, s, words, m);
        if r != Some(NoError) {
          return;
        }
        fromOffset := fromOffset + 2;
        toOffset := toOffset + 2;
      }
      return Some(NoError), toOffset;
    }

    static function ReceiverR0(s: KernelState.State, from: nat, to: nat): Word
      requires from < |s.ids| && to < |s.ids|
    {
      if s.ids[to].space == s.ids[from].space then s.ids[from].localId else s.ids[from].globalId
    }

    /** The receiver's record when the payload is complete. */
    static ghost function Finished(mid: KernelState.State, to: nat, tag: Tag, sender: Word, r0: Word): KernelState.State
      requires to < |mid.ids|
    {
      SetR0(SetUtcb(mid, to, mid.utcbs[to].(tag := tag, sender := sender)), to, r0)
    }

    static ghost function ItemsOf(s: KernelState.State, from: nat, to: nat): ItemsResult
      requires from < |s.ids| && to < |s.ids| && s.utcbs[from].tag.u + s.utcbs[from].tag.t <= MR_COUNT
    {
      var tag, to1 := s.utcbs[from].tag, UntypedCopied(s.utcbs[from].words, s.utcbs[to].words, s.utcbs[from].tag.u);
      CopyItems(s.utcbs[from].words, to1, s.mem, AcceptsStrings(to1), tag.u + 1, 1, tag.u + tag.t + 1)
    }

    static ghost function AfterItems(s: KernelState.State, from: nat, to: nat, r: ItemsResult): PayloadResult
      requires from < |s.ids| && to < |s.ids|
      requires r.ItemsDone? || r.ItemsOverflow? ==> |r.words| == UTCB_WORDS
      requires r.ItemsDone? ==> s.utcbs[from].tag.u + 1 <= r.offset
    {
      var tag := s.utcbs[from].tag;
      match r
      case ItemsStuck => PayloadStuck
      case ItemsOverflow(words, m) => Payload(Midway(s, to, words, m), MessageOverflow)
      case ItemsDone(words, m, o) =>
        Payload(Finished(Midway(s, to, words, m), to, Tag(tag.u, o - (tag.u + 1), 0, tag.labelField),
          s.ids[from].globalId, ReceiverR0(s, from, to)), NoError)
    }

    /** The specification of copy_payload, taken apart at the loop's result. */
    static ghost function PayloadInStages(s: KernelState.State, from: nat, to: nat): PayloadResult
      requires from < |s.ids| && to < |s.ids|
    {
      if s.utcbs[from].tag.u + s.utcbs[from].tag.t > MR_COUNT then Payload(s, MessageOverflow)
      else AfterItems(s, from, to, ItemsOf(s, from, to))
    }

    static lemma {:induction false} PayloadStages(s: KernelState.State, from: nat, to: nat)
      requires from < |s.ids| && to < |s.ids|
      ensures CopyPayload(s, from, to) == PayloadInStages(s, from, to)
    {
      var tag := s.utcbs[from].tag;
      SameField(s.utcbs, to);
      if tag.u + tag.t <= MR_COUNT {
        var r := ItemsOf(s, from, to);
        if r.ItemsDone? {
          FinishIs(s, to, r.words, r.mem, Tag(tag.u, r.offset - (tag.u + 1), 0, tag.labelField), s.ids[from].globalId);
        }
      }
    }

    method CopyUntyped(from: nat, to: nat, u: nat) returns (words: Registers)
      requires Valid() && from < threadCount && to < threadCount && from != to && u <= MR_COUNT
      modifies tcbStore
      ensures Valid()
      ensures var s := old(State());
        words == UntypedCopied(s.utcbs[from].words, s.utcbs[to].words, u) && State() == Midway(s, to, words, s.mem) &&
        State().utcbs[from] == s.utcbs[from] && State().utcbs[to].words == words
    {
      Record(from);
      Record(to);
      words := UntypedCopied(tcbStore[from].utcb.words, tcbStore[to].utcb.words, u);
      WriteWords(to, words);
    }

    /** The items after the untyped words, seen from the state before either. */
    static lemma {:induction false} ItemsOn(s: KernelState.State, from: nat, to: nat, words: Registers,
        items: ItemsResult)
      requires from < |s.ids| && to < |s.ids| && from != to && s.utcbs[from].tag.u + s.utcbs[from].tag.t <= MR_COUNT
      requires words == UntypedCopied(s.utcbs[from].words, s.utcbs[to].words, s.utcbs[from].tag.u) &&
        items == ItemsOf(s, from, to)
      ensures var s1, tag := Midway(s, to, words, s.mem), s.utcbs[from].tag;
        s1.utcbs[from].words == s.utcbs[from].words && s1.utcbs[to].words == words && s1.mem == s.mem &&
        CopyItems(s.utcbs[from].words, words, s.mem, AcceptsStrings(words), tag.u + 1, 1, tag.u + tag.t + 1) == items
    {
    }

    static lemma {:induction false} CopiedOn(
      items: ItemsResult, s: KernelState.State, to: nat, words: Registers, r: Option<IpcError>, offset: nat,
        now: KernelState.State)
      requires to < |s.ids| && ItemsCopied(items, Midway(s, to, words, s.mem), to, r, offset, now)
      ensures ItemsCopied(items, s, to, r, offset, now)
    {
      if !items.ItemsStuck? {
        MidwayOn(s, to, words, s.mem, items.words, items.mem);
      }
    }

    /** The untyped words and the typed items. */
    method CopyBody(from: nat, to: nat, tag: Tag) returns (r: Option<IpcError>, offset: nat)
      requires Valid() && from < threadCount && to < threadCount && from != to && tag.u + tag.t <= MR_COUNT
      requires tag == State().utcbs[from].tag
      modifies tcbStore, mem
      ensures Valid() && ItemsCopied(ItemsOf(old(State()), from, to), old(State()), to, r, offset, State())
    {
      ghost var s := State();
      ghost var items := ItemsOf(s, from, to);
      var words := CopyUntyped(from, to, tag.u);
      ItemsOn(s, from, to, words, items);
      r, offset := CopyTypedItems(from, to, AcceptsStrings(words), tag.u + 1, tag.u + tag.t + 1);
      CopiedOn(items, s, to, words, r, offset, State());
    }

    static lemma {:induction false} FinishIs(s: KernelState.State, to: nat, words: Registers, m: seq<Byte>, tag: Tag,
        sender: Word)
      requires to < |s.ids|
      ensures var mid := Midway(s, to, words, m);
        SetUtcb(mid, to, mid.utcbs[to].(tag := tag, sender := sender)) ==
        SetUtcb(s, to, s.utcbs[to].(tag := tag, words := words, sender := sender)).(mem := m)
    {
      var mid := Midway(s, to, words, m);
      assert mid.utcbs[to := mid.utcbs[to].(tag := tag, sender := sender)] ==
        s.utcbs[to := s.utcbs[to].(tag := tag, words := words, sender := sender)];
    }

    static lemma {:induction false} FinishedIs(s: KernelState.State, from: nat, to: nat, items: ItemsResult)
      requires from < |s.ids| && to < |s.ids| && items.ItemsDone? && |items.words| == UTCB_WORDS
      requires s.utcbs[from].tag.u + 1 <= items.offset
      ensures var mid, tag := Midway(s, to, items.words, items.mem), s.utcbs[from].tag;
        |mid.ids| == |s.ids| &&
        AfterItems(s, from, to, items) ==
          Payload(Finished(mid, to, Tag(tag.u, items.offset - (tag.u + 1), 0, tag.labelField), mid.ids[from].globalId,
            ReceiverR0(mid, from, to)), NoError)
    {
      assert Midway(s, to, items.words, items.mem).ids == s.ids;
    }

    /** The sender's id and the new tag in the receiver's UTCB, and r0 of its saved registers. */
    method FinishPayload(from: nat, to: nat, tag: Tag)
      requires Valid() && from < threadCount && to < threadCount
      modifies tcbStore
      ensures Valid()
      ensures var s := old(State()); State() == Finished(s, to, tag, s.ids[from].globalId, ReceiverR0(s, from, to))
    {
      Record(from);
      Record(to);
      WriteUtcb(to, tcbStore[to].utcb.(tag := tag, sender := tcbStore[from].id.globalId));
      Record(from);
      Record(to);
      var r0 :=
        if tcbStore[to].id.space == tcbStore[from].id.space then tcbStore[from].id.localId
        else tcbStore[from].id.globalId;
      WriteRegs(to, tcbStore[to].regs.(r0 := r0));
    }

    /** copy_payload when the message's size is in range. */
    method CopySized(from: nat, to: nat, tag: Tag) returns (r: Option<IpcError>)
      requires Valid() && from < threadCount && to < threadCount && from != to
      requires tag == State().utcbs[from].tag && tag.u + tag.t <= MR_COUNT
      modifies tcbStore, mem
      ensures Valid()
      ensures match AfterItems(old(State()), from, to, ItemsOf(old(State()), from, to))
        case PayloadStuck => r == None
        case Payload(s1, code) => r == Some(code) && State() == s1
    {
      ghost var s := State();
      ghost var items := ItemsOf(s, from, to);
      var offset;
      r, offset := CopyBody(from, to, tag);
      if r == Some(NoError) {
        FinishedIs(s, from, to, items);
        ghost var mid := State();
        assert offset == items.offset && mid == Midway(s, to, items.words, items.mem);
        FinishPayload(from, to, Tag(tag.u, offset - (tag.u + 1), 0, tag.labelField));
        assert AfterItems(s, from, to, items) == Payload(State(), NoError);
      }
    }

    /** copy_payload; None where the specification is stuck. */
    method CopyPayloadTo(from: nat, to: nat) returns (r: Option<IpcError>)
      requires Valid() && from < threadCount && to < threadCount && from != to
      modifies tcbStore, mem
      ensures Valid()
      ensures match CopyPayload(old(State()), from, to)
        case PayloadStuck => r == None
        case Payload(s1, code) => r == Some(code) && State() == s1
    {
      PayloadStages(State(), from, to);
      Record(from);
      var tag := tcbStore[from].utcb.tag;
      if tag.u + tag.t > MR_COUNT {
        return Some(MessageOverflow);
      }
      r := CopySized(from, to, tag);
    }

    // ---------- The phases of IPC ----------

    method SetThreadTimeoutOf(t: nat, timeout: Time, targetState: ThreadState) returns (r: Timer)
      requires Valid() && t < threadCount && IsTime(timeout)
      modifies tcbStore, queue, queue.data
      ensures Valid()
      ensures match SetThreadTimeout(old(State()), t, timeout, targetState)
        case Armed(s1) => r == TimerArmed && State() == s1
        case Refused => r == TimerRefused && State() == old(State())
        case TimerPanic => r == TimerPanicked
    {
      if IsEqual(timeout, NEVER) {
        return TimerArmed;
      }
      if IsEqual(timeout, ZERO_TIME) {
        return TimerRefused;
      }
      if timeout.point {
        return TimerPanicked;
      }
      SetThreadState(t, targetState);
      return TimerArmed;
    }

    method PagerStartThread(pager: nat, target: nat)
      requires Valid() && pager < threadCount && target < threadCount
      modifies tcbStore, queue, queue.data
      ensures Valid() && State() == PagerStart(old(State()), pager, target)
    {
      Record(pager);
      var words := tcbStore[pager].utcb.words;
      var sp := if words[2] >= 32 then words[2] - 32 else words[2] + 0xFFFF_FFE0;
      WriteEntry(target, Entry(words[1], sp, THUMB_BIT, RETURN_TO_THREAD));
      SetThreadState(target, Runnable);
    }

    method ReportToBoth(sender: nat, receiver: nat, code: IpcError)
      requires Valid() && sender < threadCount && receiver < threadCount
      modifies tcbStore
      ensures Valid() && State() == ReportBoth(old(State()), sender, receiver, code)
    {
      WriteError(sender, IpcFailure(false, code));
      WriteError(receiver, IpcFailure(true, code));
      SetIpcError(sender);
      SetIpcError(receiver);
    }

    /** The tables and the events are those of the specified phase; no result is a panic. */
    static ghost predicate Meets(spec: PhaseOutcome, r: Option<Phase>, s: KernelState.State, ev: seq<Event>) {
      match spec
      case PhaseHalt => r == None
      case Phase(phase, s', e) => r == Some(phase) && s == s' && ev == e
    }

    // The events of a phase are a ghost result, each appended beside the statement that it records.

    /** A partner that waits for the message. */
    method SendToReceiver(t: nat, to: Word, p: nat) returns (r: Option<Phase>, ghost ev: seq<Event>)
      requires Valid() && t < threadCount && p < threadCount && t != p
      modifies this, tcbStore, queue, queue.data, mem
      ensures Valid() && threadCount == old(threadCount)
      ensures Meets(SendToPartner(old(State()), t, to, p), r, State(), ev)
    {
      ghost var spec := SendToPartner(State(), t, to, p);
      ev := [SendBegin(t, to)];
      var ret := CopyPayloadTo(t, p);
      if ret == None {
        return None, ev;
      }
      var ok := ret == Some(NoError);
      if ok {
        ev := ev + [Event.Copied(t, p)];
      } else {
        ReportToBoth(t, p, ret.value);
      }
      SetThreadState(p, Runnable);
      assert spec.Phase? && spec.s == State();
      ev := ev + [RecvEnd(p, ok)];
      ev := ev + [SendEnd(t, ok)];
      r := Some(if ok then PhaseDone else PhaseError);
    }

    /** A pager's message to a thread that has not started, other than the one that starts it. */
    method CopyToActive(t: nat, to: Word, p: nat) returns (r: Option<Phase>, ghost ev: seq<Event>)
      requires Valid() && t < threadCount && p < threadCount && t != p
      modifies tcbStore, mem
      ensures Valid()
      ensures Meets(CopyAsPager(old(State()), t, to, p), r, State(), ev)
    {
      ev := [SendBegin(t, to)];
      var ret := CopyPayloadTo(t, p);
      if ret == None {
        return None, ev;
      }
      if ret == Some(NoError) {
        ev := ev + [PagerCopied(t, p)];
        return Some(PhaseDone), ev + [SendEnd(t, true)];
      }
      WriteError(t, IpcFailure(false, ret.value));
      SetIpcError(t);
      return Some(PhaseError), ev + [SendEnd(t, false)];
    }

    /** A pager's message to a thread that has not started: its start message, or any other. */
    method SendToActive(t: nat, to: Word, p: nat) returns (r: Option<Phase>, ghost ev: seq<Event>)
      requires Valid() && t < threadCount && p < threadCount && t != p
      modifies this, tcbStore, queue, queue.data, mem
      ensures Valid() && threadCount == old(threadCount)
      ensures Meets(SendAsPager(old(State()), t, to, p), r, State(), ev)
    {
      Record(t);
      var tag := tcbStore[t].utcb.tag;
      if tag.flags == 0 && tag.labelField == 0 && tag.t == 0 && tag.u == 2 {
        ev := [SendBegin(t, to)];
        PagerStartThread(t, p);
        ev := ev + [PagerStarted(t, p)];
        return Some(PhaseDone), ev + [SendEnd(t, true)];
      }
      r, ev := CopyToActive(t, to, p);
    }

    /** No partner is ready: the timer is set, and the thread is to wait. */
    method WaitForPartner(t: nat, peer: Word, timeout: Time, blocked: ThreadState) returns (r: Option<Phase>)
      requires Valid() && t < threadCount && IsTime(timeout) && (blocked == SendBlocked || blocked == RecvBlocked)
      modifies this, tcbStore, queue, queue.data
      ensures Valid() && threadCount == old(threadCount)
      ensures match SetThreadTimeout(old(State()), t, timeout, blocked)
        case TimerPanic => r == None
        case Refused => r == Some(PhaseError) &&
          State() == SetError(old(State()), t, IpcFailure(blocked == RecvBlocked, Aborted))
        case Armed(s1) => r == Some(PhaseWait) && State() == SetPeer(s1, t, peer)
    {
      var timer := SetThreadTimeoutOf(t, timeout, blocked);
      match timer
      case TimerPanicked => return None;
      case TimerArmed =>
        WritePeer(t, peer);
        return Some(PhaseWait);
      case TimerRefused =>
        WriteError(t, IpcFailure(blocked == RecvBlocked, Aborted));
        return Some(PhaseError);
    }

    method SendWhenReady(t: nat, to: Word, timeout: Time) returns (r: Option<Phase>, ghost ev: seq<Event>)
      requires Valid() && t < threadCount && IsTime(timeout)
      modifies this, tcbStore, queue, queue.data
      ensures Valid() && threadCount == old(threadCount)
      ensures Meets(SendLater(old(State()), t, to, timeout), r, State(), ev)
    {
      ev := [SendBegin(t, to)];
      r := WaitForPartner(t, to, timeout, SendBlocked);
      if r == Some(PhaseError) {
        ev := ev + [SendEnd(t, false)];
      }
    }

    /** ipc_send; no result is a panic. */
    method SendPhase(t: nat, to: Word, timeout: Time) returns (r: Option<Phase>, ghost ev: seq<Event>)
      requires Valid() && t < threadCount && IsTime(timeout)
      requires State().states[t] != RecvBlocked && State().states[t] != Active
      modifies this, tcbStore, queue, queue.data, mem
      ensures Valid() && threadCount == old(threadCount)
      ensures Meets(IpcSend(old(State()), t, to, timeout), r, State(), ev)
    {
      if to == NILTHREAD {
        return Some(PhaseDone), [];
      }
      if !SendPeer(to) {
        return None, [];
      }
      var search := FindIpcPartner(t, to, true);
      match search
      case Found(p) => r, ev := SendToReceiver(t, to, p);
      case PagerMsg(p) => r, ev := SendToActive(t, to, p);
      case NotReady => r, ev := SendWhenReady(t, to, timeout);
      case Nonexistent =>
        ev := [SendBegin(t, to)];
        WriteError(t, IpcFailure(false, NonexistentPartner));
        ev := ev + [SendEnd(t, false)];
        r := Some(PhaseError);
    }

    method ReceiveWhenReady(t: nat, from: Word, timeout: Time) returns (r: Option<Phase>, ghost ev: seq<Event>)
      requires Valid() && t < threadCount && IsTime(timeout)
      modifies this, tcbStore, queue, queue.data
      ensures Valid() && threadCount == old(threadCount)
      ensures Meets(RecvLater(old(State()), t, from, timeout), r, State(), ev)
    {
      ev := [RecvBegin(t, from)];
      r := WaitForPartner(t, from, timeout, RecvBlocked);
      if r == Some(PhaseError) {
        ev := ev + [RecvEnd(t, false)];
      }
    }

    /** The copy from the ready sender p failed. */
    method ReceiveOverflow(t: nat, from: Word, p: nat) returns (ghost ev: seq<Event>)
      requires Valid() && t < threadCount && p < threadCount && t != p
      modifies this, tcbStore, queue, queue.data
      ensures Valid() && threadCount == old(threadCount)
      ensures Meets(RecvOverflow(old(State()), t, from, p), Some(PhaseError), State(), ev)
    {
      ev := [RecvBegin(t, from)];
      ReportToBoth(p, t, MessageOverflow);
      SetThreadState(p, Runnable);
      ev := ev + [SendEnd(p, false)];
      ev := ev + [RecvEnd(t, false)];
    }

    /** The ready sender p is served, and goes on with its own receive phase. */
    method ReceiveFrom(t: nat, from: Word, timeout: Time, p: nat, ghost visited: set<nat>)
      returns (r: Option<Phase>, ghost ev: seq<Event>)
      requires Valid() && t < threadCount && IsTime(timeout) && Chain(State(), t, visited)
      requires from != NILTHREAD && RecvPeer(from) && FindPartner(State(), t, from, false) == Found(p)
      modifies this, tcbStore, queue, queue.data, mem
      ensures Valid() && threadCount == old(threadCount)
      ensures Meets(IpcRecv(old(State()), t, from, timeout, visited), r, State(), ev)
      decreases Remaining(State(), visited), 0
    {
      ghost var s := State();
      ghost var spec := IpcRecv(s, t, from, timeout, visited);
      ChainGrows(s, t, visited, p);
      var ret := CopyPayloadTo(p, t);
      if ret == None {
        assert spec == PhaseHalt;
        return None, [];
      }
      if ret != Some(NoError) {
        assert spec == RecvOverflow(State(), t, from, p);
        ev := ReceiveOverflow(t, from, p);
        return Some(PhaseError), ev;
      }
      ServedIs(s, t, from, timeout, visited, p, State());
      ghost var call := DoIpc(State(), p, true, visited + {t});
      assert spec == AfterServing(t, from, p, call);
      ev := [RecvBegin(t, from), Event.Copied(p, t), SendEnd(p, true)];
      ghost var chained;
      var done;
      done, chained := DoIpcFor(p, true, visited + {t});
      r := if done then Some(PhaseDone) else None;
      ev := ev + chained;
    }

    /** ipc_recv; no result is a panic or an operand outside the model. */
    method RecvPhase(t: nat, from: Word, timeout: Time, ghost visited: set<nat>)
        returns (r: Option<Phase>, ghost ev: seq<Event>)
      requires Valid() && t < threadCount && IsTime(timeout) && Chain(State(), t, visited)
      modifies this, tcbStore, queue, queue.data, mem
      ensures Valid() && threadCount == old(threadCount)
      ensures Meets(IpcRecv(old(State()), t, from, timeout, visited), r, State(), ev)
      decreases Remaining(State(), visited), 1
    {
      if from == NILTHREAD {
        return Some(PhaseDone), [];
      }
      if !RecvPeer(from) {
        return None, [];
      }
      var search := FindIpcPartner(t, from, false);
      match search
      case Found(p) => r, ev := ReceiveFrom(t, from, timeout, p, visited);
      case PagerMsg(_) => return None, [];
      case NotReady => r, ev := ReceiveWhenReady(t, from, timeout);
      case Nonexistent =>
        ev := [RecvBegin(t, from)];
        WriteError(t, IpcFailure(true, NonexistentPartner));
        ev := ev + [RecvEnd(t, false)];
        r := Some(PhaseError);
    }

    /** do_ipc's switch on the result of the receive phase, whose events are recvEv. */
    method FinishCall(t: nat, from: Word, phase: Phase, ghost sendEv: seq<Event>, ghost recvEv: seq<Event>)
        returns (ghost ev: seq<Event>)
      requires Valid() && t < threadCount
      modifies tcbStore, queue, queue.data
      ensures Valid()
      ensures Done(State(), ev) == AfterRecv(t, from, sendEv, PhaseOutcome.Phase(phase, old(State()), recvEv))
    {
      ev := sendEv + recvEv;
      match phase
      case PhaseDone =>
        SetThreadState(t, Runnable);
        ev := ev + (if from == NILTHREAD then [] else [RecvEnd(t, true)]);
      case PhaseError =>
        SetIpcError(t);
        SetThreadState(t, Runnable);
      case PhaseWait =>
        SetThreadState(t, RecvBlocked);
    }

    /** do_ipc; false when it panics or leaves the model. */
    method DoIpcFor(t: nat, skipSending: bool, ghost visited: set<nat>) returns (ok: bool, ghost ev: seq<Event>)
      requires Valid() && t < threadCount && Chain(State(), t, visited)
      requires skipSending || (State().states[t] != RecvBlocked && State().states[t] != Active)
      modifies this, tcbStore, queue, queue.data, mem
      ensures Valid() && threadCount == old(threadCount)
      ensures match DoIpc(old(State()), t, skipSending, visited)
        case Halt => !ok
        case Done(s', e) => ok && State() == s' && ev == e
      decreases Remaining(State(), visited), 2
    {
      ghost var s := State();
      Record(t);
      var regs := tcbStore[t].regs;
      ghost var recvEv;
      ev := [];
      var sendResult: Option<Phase>, recvResult: Option<Phase> := Some(PhaseDone), None;
      if !skipSending {
        sendResult, ev := SendPhase(t, regs.r0, SendTimeout(regs.r2));
      }
      match sendResult
      case None => return false, ev;
      case Some(PhaseError) =>
        SetIpcError(t);
        SetThreadState(t, Runnable);
        return true, ev;
      case Some(PhaseWait) =>
        SetThreadState(t, SendBlocked);
        return true, ev;
      case Some(PhaseDone) =>
        ChainKept(s, State(), t, visited);
        recvResult, recvEv := RecvPhase(t, regs.r1, RecvTimeout(regs.r2), visited);
        if recvResult == None {
          return false, ev;
        }
        ev := FinishCall(t, regs.r1, recvResult.value, ev, recvEv);
        return true, ev;
    }

    /** do_ipc_timeout, for the id that the alarm holds. */
    method DoIpcTimeout(target: Word) returns (ghost ev: seq<Event>)
      requires Valid() && threadCount > 0
      modifies tcbStore, queue, queue.data
      ensures Valid()
      ensures Done(State(), ev) ==
        match Lookup(old(State()).ids, target)
        case None => Done(old(State()), [])
        case Some(t) => IpcTimeout(old(State()), t)
    {
      ev := [];
      var tcb := FindThreadByGlobalId(target);
      if tcb == None {
        return;
      }
      var t := tcb.value;
      Record(t);
      var state := tcbStore[t].state;
      if state != RecvBlocked && state != SendBlocked {
        return;
      }
      SetIpcError(t);
      WriteError(t, IpcFailure(state == RecvBlocked, IpcError.Timeout));
      SetThreadState(t, Runnable);
      ev := [if state == RecvBlocked then RecvEnd(t, false) else SendEnd(t, false)];
    }

    // ---------- The scheduler ----------

    method WriteCurrent(idx: nat)
      requires Valid()
      modifies this`currentThreadIdx
      ensures Valid() && State() == old(State()).(current := idx)
    {
      currentThreadIdx := idx;
    }

    /** find_thread_idx_to_schedule; false is its panic. */
    method FindThreadIdxToSchedule() returns (ok: bool, idx: nat)
      requires Valid()
      modifies queue, queue.data
      ensures Valid()
      ensures ok == (old(State()).heap != [])
      ensures ok ==> idx == old(State()).heap[0]
      ensures ok ==> State() == old(State()).(heap := Delete(Priorities(old(State()).ids), old(State()).heap, 0))
    {
      if queue.size == 0 {
        return false, 0;
      }
      idx := queue.data[0];
      assert idx == queue.Contents()[0];
      HeapPop();
      ok := true;
    }

    /** The current thread goes back into the heap while it is runnable. */
    method RequeueCurrent()
      requires Valid()
      modifies queue, queue.data
      ensures Valid() && State() == Requeue(old(State()))
    {
      if currentThreadIdx < threadCount {
        Record(currentThreadIdx);
        if tcbStore[currentThreadIdx].state == Runnable {
          HeapInsert(currentThreadIdx);
        }
      }
    }

    /** find_thread_idx_to_schedule_from_target; false is a panic. */
    method FindThreadIdxFromTarget(target: nat) returns (ok: bool, idx: nat)
      requires Valid()
      modifies queue, queue.data
      ensures Valid()
      ensures var s := old(State());
        if target in s.heap then
          ok == (target < |s.ids| && s.states[target] == Runnable) &&
          (ok ==> idx == target && State() == s.(heap := Delete(Priorities(s.ids), s.heap, IndexOf(s.heap, target))))
        else
          ok == (s.heap != []) &&
          (ok ==> idx == s.heap[0] && State() == s.(heap := Delete(Priorities(s.ids), s.heap, 0)))
    {
      var i := queue.Find(target);
      if i != HEAP_FAIL {
        HeapDelete(i);
        if target >= threadCount {
          return false, 0;
        }
        Record(target);
        return tcbStore[target].state == Runnable, target;
      }
      ok, idx := FindThreadIdxToSchedule();
    }

    /** schedule_next_thread; false is a panic. */
    method ScheduleNextThread(target: Option<nat>) returns (ok: bool)
      requires Valid()
      modifies this`currentThreadIdx, tcbStore, queue, queue.data
      ensures Valid()
      ensures match ScheduleNext(old(State()), target)
        case Switched(s') => ok && State() == s'
        case _ => !ok
    {
      RequeueCurrent();
      var idx;
      if target.Some? {
        ok, idx := FindThreadIdxFromTarget(target.value);
      } else {
        ok, idx := FindThreadIdxToSchedule();
      }
      if ok {
        WriteCurrent(idx);
      }
    }

    // ---------- kern/syscall.c ----------

    method WritePending(b: bool)
      requires Valid()
      modifies this`softirqPending
      ensures Valid() && State() == old(State()).(pending := b)
    {
      softirqPending := b;
    }

    method WriteCaller(t: nat)
      requires Valid()
      modifies this`caller
      ensures Valid() && State() == old(State()).(caller := t)
    {
      caller := t;
    }

    /** __isr_svcall for SYS_THREAD_SWITCH, with the context switch that follows. */
    method SvcThreadSwitch(dest: Word) returns (ok: bool)
      requires Valid() && currentThreadIdx < threadCount
      requires Enabled(State(), ThreadSwitch(dest)) &&
        (State().pending && IsThread(State(), KERNEL) ==>
          IsThread(State(), State().caller) && Chain(State(), State().caller, {}))
      modifies this`currentThreadIdx, tcbStore, queue, queue.data
      ensures Valid()
      ensures match TakeStep(old(State()), ThreadSwitch(dest))
        case Next(s', _) => ok && State() == s'
        case _ => !ok
    {
      if currentThreadIdx != KERNEL {
        SetThreadState(currentThreadIdx, Paused);
      }
      var target := FindThreadByGlobalId(dest);
      ok := ScheduleNextThread(target);
    }

    /** __isr_svcall for every call that the kernel thread serves, with the context switch that
        follows: the caller blocks, the software interrupt is raised and the kernel thread runs. */
    method SvcDefault(regs: Regs) returns (ok: bool)
      requires Valid() && threadCount > ROOT
      requires Enabled(State(), SupervisorCall(regs)) &&
        (State().pending ==> IsThread(State(), State().caller) && Chain(State(), State().caller, {}))
      modifies this, tcbStore, queue, queue.data
      ensures Valid() && threadCount == old(threadCount)
      ensures match TakeStep(old(State()), SupervisorCall(regs))
        case Next(s', _) => ok && State() == s'
        case _ => !ok
    {
      var current := currentThreadIdx;
      WriteRegs(current, regs);
      WriteCaller(current);
      SetThreadState(current, SvcBlocked);
      WritePending(true);
      SetThreadState(KERNEL, Runnable);
      ok := ScheduleNextThread(Some(KERNEL));
    }

    /** set_thread_priority. */
    method SetThreadPriority(t: nat, prio: nat)
      requires Valid() && t < threadCount
      modifies tcbStore, queue, queue.data
      ensures Valid() && State() == SetPriority(old(State()), t, prio)
    {
      SameFields(t);
      SetTcb(t, tcbStore[t].(id := tcbStore[t].id.(priority := prio)));
      var heapIdx := queue.Find(t);
      if heapIdx == HEAP_FAIL {
        return;
      }
      var prios := PriorityTable();
      var sunk := queue.SinkDown(prios, heapIdx);
      var _ := queue.SwimUp(prios, sunk);
    }

    /** r0 := 0 and an error number in the caller's UTCB. */
    method RefuseCaller(error: nat)
      requires Valid() && caller < threadCount
      modifies tcbStore
      ensures Valid() && State() == Refuse(old(State()), error)
    {
      WriteError(caller, CallFailure(error));
      Record(caller);
      WriteRegs(caller, tcbStore[caller].regs.(r0 := 0));
    }

    method CheckSchedule(dest: nat) returns (error: nat)
      requires Valid() && caller < threadCount && dest < threadCount
      ensures error == ScheduleVerdict(State(), dest)
    {
      Record(caller);
      Record(dest);
      var regs := tcbStore[caller].regs;
      var scheduler := FindThreadByGlobalId(tcbStore[dest].id.scheduler);
      if scheduler.Some? {
        Record(scheduler.value);
      }
      if scheduler == None || tcbStore[caller].id.space != tcbStore[scheduler.value].id.space {
        return 1;
      }
      if regs.r2 != ALL_ONES && regs.r2 != 0 {
        return 5;
      }
      if regs.r3 != ALL_ONES && tcbStore[caller].id.priority > regs.r3 {
        return 5;
      }
      return 0;
    }

    method ApplySchedule(dest: nat)
      requires Valid() && caller < threadCount && dest < threadCount
      modifies tcbStore, queue, queue.data
      ensures Valid() && State() == ScheduleApply(old(State()), dest)
    {
      Record(caller);
      var regs := tcbStore[caller].regs;
      if regs.r3 != ALL_ONES {
        SetThreadPriority(dest, regs.r3);
      }
      Record(dest);
      WriteRegs(caller, regs.(r0 := ThreadStateNo(tcbStore[dest].state), r1 := 0));
    }

    /** syscall_schedule; false is its panic. */
    method SyscallSchedule() returns (ok: bool)
      requires Valid() && caller < threadCount
      modifies tcbStore, queue, queue.data
      ensures Valid()
      ensures match Schedule(old(State()))
        case None => !ok
        case Some(s') => ok && State() == s'
    {
      Record(caller);
      var regs := tcbStore[caller].regs;
      var dest := FindThreadByGlobalId(regs.r0);
      if dest == None {
        RefuseCaller(2);
        return true;
      }
      var error := CheckSchedule(dest.value);
      if error != 0 {
        RefuseCaller(error);
        return true;
      }
      if regs.r4 != ALL_ONES {
        return false;
      }
      ApplySchedule(dest.value);
      return true;
    }

    // ---------- create_thread ----------

    /** thread_list_insert: the shifting loop, from the place that the search names. */
    method ThreadListInsert(tcbIdx: nat, globalId: Word)
      requires Shaped() && tcbIdx < THREAD_MAX_COUNT && threadCount + 1 < THREAD_MAX_COUNT
      requires forall i :: 0 <= i < THREAD_MAX_COUNT ==> threadList[i] == (if i < threadCount then i else 0)
      requires ThreadNo(tcbStore[tcbIdx].id.globalId) == ThreadNo(globalId) && tcbIdx == threadCount
      requires forall i :: 0 <= i < threadCount ==> ThreadNo(tcbStore[i].id.globalId) < ThreadNo(globalId)
      modifies this`threadCount, threadList
      ensures threadCount == old(threadCount) + 1
      ensures forall i :: 0 <= i < THREAD_MAX_COUNT ==> threadList[i] == (if i < threadCount then i else 0)
    {
      ghost var nos: seq<nat> := seq(THREAD_MAX_COUNT, i
        requires 0 <= i < THREAD_MAX_COUNT && Shaped() && threadList[i] < THREAD_MAX_COUNT
        reads Repr()
        => ThreadNo(tcbStore[threadList[i]].id.globalId));
      var idx := SearchList(threadList, tcbStore, threadCount, ThreadNo(globalId), nos);
      ThreadMap.InsertionPointAtEnd(nos, threadCount, ThreadNo(globalId));
      assert idx == threadCount;
      threadCount := threadCount + 1;
      var i, carried := idx, tcbIdx;
      while i < threadCount
        invariant idx <= i <= threadCount == old(threadCount) + 1
        invariant i == idx ==> carried == tcbIdx
        invariant forall k :: 0 <= k < THREAD_MAX_COUNT ==> threadList[k] == (if k < i && k < threadCount then k else 0)
      {
        var tmp := threadList[i];
        threadList[i] := carried;
        carried := tmp;
        i := i + 1;
      }
    }

    /** create_thread, for a thread number above all present ones. */
    method CreateThreadOf(id: Ident, state: ThreadState) returns (t: nat)
      requires Valid() && threadCount + 1 < THREAD_MAX_COUNT
      requires forall i :: 0 <= i < threadCount ==> ThreadNo(State().ids[i].globalId) < ThreadNo(id.globalId)
      modifies this`threadCount, tcbStore, threadList
      ensures Valid() && t == old(threadCount)
      ensures State() == CreateThread(old(State()), id, state)
    {
      ghost var s := State();
      ghost var tcbs := tcbStore[..threadCount];
      forall i | 0 <= i < threadCount
        ensures ThreadNo(tcbStore[i].id.globalId) < ThreadNo(id.globalId)
      {
        Record(i);
      }
      t := threadCount;
      var blank := Utcb(Tag(0, 0, 0, 0), seq(24, _ => 0), CallFailure(0), 0);
      var tcb := Tcb(id, state, 0, blank, Regs(0, 0, 0, 0, 0, 0), Entry(0, 0, 0, 0));
      tcbStore[t] := tcb;
      ThreadListInsert(t, id.globalId);
      assert tcbStore[..threadCount] == tcbs + [tcb];
      ProjectAppend(tcbs, tcb, s);
    }

    // ---------- space_control and thread_control ----------

    method WriteIdent(t: nat, id: Ident)
      requires Valid() && t < threadCount && id.globalId == tcbStore[t].id.globalId
      modifies tcbStore
      ensures Valid() && State() == old(State()).(ids := old(State()).ids[t := id])
    {
      SameFields(t);
      SetTcb(t, tcbStore[t].(id := id));
    }

    method WriteSpaces(n: nat)
      requires Valid()
      modifies `spaces
      ensures Valid() && State() == old(State()).(spaces := n)
    {
      spaces := n;
    }

    method EnterSpaceOf(t: nat, utcbPageSet: bool)
      requires Valid() && caller < threadCount && t < threadCount
      modifies `spaces, tcbStore
      ensures Valid() && State() == EnterSpace(old(State()), t, utcbPageSet)
    {
      Record(t);
      if tcbStore[t].id.space == 0 {
        WriteIdent(t, tcbStore[t].id.(space := spaces + 1));
        WriteSpaces(spaces + 1);
      }
      if utcbPageSet {
        RefuseCaller(6);
      }
    }

    /** The event of a thread that is about to be taken out of its phase. */
    lemma {:induction false} PhaseOf(t: nat)
      requires Valid() && t < threadCount
      ensures Interrupts(State(), t) ==
        if tcbStore[t].state == SendBlocked then [CutShort(t, false)]
        else if tcbStore[t].state == RecvBlocked then [CutShort(t, true)]
        else []
    {
      Record(t);
    }

    method ActivateThread(t: nat, starts: bool) returns (ok: bool, ghost ev: seq<Event>)
      requires Valid() && caller < threadCount && t < threadCount
      modifies tcbStore, queue, queue.data
      ensures Valid()
      ensures match ActivateIn(old(State()), t, starts)
        case Halt => !ok
        case Done(s', e) => ok && State() == s' && ev == e
    {
      PhaseOf(t);
      ev := [];
      if starts {
        if t == KERNEL || t == IDLE {
          return false, ev;
        }
        ghost var was := tcbStore[t].state;
        WriteError(t, CallFailure(0));
        SetThreadState(t, Active);
        if was == SendBlocked || was == RecvBlocked {
          ev := [CutShort(t, was == RecvBlocked)];
        }
      }
      Record(caller);
      WriteRegs(caller, tcbStore[caller].regs.(r0 := 1, r1 := 0));
      return true, ev;
    }

    /** syscall_space_control past its checks. */
    method ControlSpace(t: nat, env: Env) returns (ok: bool, ghost ev: seq<Event>)
      requires Valid() && caller < threadCount && t < threadCount
      modifies `spaces, tcbStore, queue, queue.data
      ensures Valid()
      ensures match ControlSpaceOf(old(State()), t, env)
        case Halt => !ok
        case Done(s', e) => ok && State() == s' && ev == e
    {
      Record(t);
      var pager := tcbStore[t].id.pager;
      if tcbStore[t].id.space == 0 && spaces >= MAX_ADDRESS_SPACES {
        return false, [];
      }
      EnterSpaceOf(t, env.utcbPageSet);
      ok, ev := ActivateThread(t, env.utcbInArea && pager != NILTHREAD);
    }

    /** syscall_space_control. */
    method SyscallSpaceControl(env: Env) returns (ok: bool, ghost ev: seq<Event>)
      requires Valid() && caller < threadCount
      modifies this, tcbStore, queue, queue.data
      ensures Valid() && threadCount == old(threadCount) && caller == old(caller)
      ensures match SpaceControl(old(State()), env)
        case Halt => !ok
        case Done(s', e) => ok && State() == s' && ev == e
    {
      Record(caller);
      var target := FindThreadByGlobalId(tcbStore[caller].regs.r0);
      if target == None {
        RefuseCaller(3);
        return true, [];
      }
      if !env.kipAreaOk {
        RefuseCaller(7);
        return true, [];
      }
      ok, ev := ControlSpace(target.value, env);
    }

    /** The checks of syscall_thread_control and its creation; None when they pass, else the error number. */
    method CheckCreation(env: Env) returns (error: Option<nat>, space: Option<nat>)
      requires Valid() && caller < threadCount
      ensures space == Lookup(State().ids, State().regs[caller].r1)
      ensures error == CreationError(State(), env)
    {
      Record(caller);
      var regs := tcbStore[caller].regs;
      space := FindThreadByGlobalId(regs.r1);
      if SameThreads(regs.r1, NILTHREAD) {
        return Some(3), space;
      }
      if space == None && !SameThreads(regs.r0, regs.r1) {
        return Some(3), space;
      }
      if space.Some? {
        Record(space.value);
        if tcbStore[space.value].id.space == 0 {
          return Some(3), space;
        }
      }
      var scheduler := FindThreadByGlobalId(regs.r2);
      if regs.r2 != NILTHREAD && scheduler == None {
        return Some(4), space;
      }
      if space.Some? && !env.utcbInArea {
        return Some(7), space;
      }
      return None, space;
    }

    method RefuseAndUnblock(error: nat)
      requires Valid() && caller < threadCount
      modifies tcbStore, queue, queue.data
      ensures Valid() && State() == Unblock(Refuse(old(State()), error))
    {
      RefuseCaller(error);
      SetThreadState(caller, Runnable);
    }

    method AnswerCaller(r0: Word)
      requires Valid() && caller < threadCount
      modifies tcbStore
      ensures Valid() && State() == Answer(old(State()), r0)
    {
      Record(caller);
      WriteRegs(caller, tcbStore[caller].regs.(r0 := r0));
    }

    /** The new thread, the caller's answer and the unblocking of the caller. */
    method CreateForCaller(space: Option<nat>)
      requires Valid() && caller < threadCount && threadCount + 1 < THREAD_MAX_COUNT
      requires space.Some? ==> space.value < threadCount
      requires forall i :: 0 <= i < threadCount ==>
        ThreadNo(State().ids[i].globalId) < ThreadNo(State().regs[caller].r0)
      modifies this`threadCount, tcbStore, threadList, queue, queue.data
      ensures Valid() && threadCount == old(threadCount) + 1
      ensures var s := old(State());
        var regs := s.regs[s.caller];
        var inSpace := if space.Some? then s.ids[space.value].space else 0;
        var id := Ident(regs.r0, regs.r4, inSpace, DEFAULT_PRIORITY, regs.r3, regs.r2);
        var state := if regs.r3 == NILTHREAD || space.None? then Inactive else Active;
        State() == Unblock(Answer(CreateThread(s, id, state), 1))
    {
      Record(caller);
      var regs := tcbStore[caller].regs;
      var inSpace := 0;
      if space.Some? {
        Record(space.value);
        inSpace := tcbStore[space.value].id.space;
      }
      var state := if regs.r3 == NILTHREAD || space.None? then Inactive else Active;
      var _ := CreateThreadOf(Ident(regs.r0, regs.r4, inSpace, DEFAULT_PRIORITY, regs.r3, regs.r2), state);
      AnswerCaller(1);
      SetThreadState(caller, Runnable);
    }

    /** syscall_thread_control_create past its checks, for a number that the list can take. */
    method CreateIfFits(space: Option<nat>) returns (ok: bool)
      requires Valid() && caller < threadCount && space == Lookup(State().ids, State().regs[caller].r1)
      modifies this`threadCount, tcbStore, threadList, queue, queue.data
      ensures Valid() && threadCount >= old(threadCount)
      ensures match Creation(old(State()))
        case Outside => !ok
        case Controlled(s') => ok && State() == s'
    {
      Record(caller);
      var regs := tcbStore[caller].regs;
      ok := Fits(State().ids, regs.r0, regs.r4);
      if ok {
        CreateForCaller(space);
      }
    }

    /** syscall_thread_control for a thread that does not exist yet. */
    method CheckAndCreate(env: Env) returns (ok: bool)
      requires Valid() && caller < threadCount
      modifies this`threadCount, tcbStore, threadList, queue, queue.data
      ensures Valid() && threadCount >= old(threadCount)
      ensures match CreationChecked(old(State()), env)
        case Outside => !ok
        case Controlled(s') => ok && State() == s'
    {
      var error, space := CheckCreation(env);
      if error.Some? {
        RefuseAndUnblock(error.value);
        return true;
      }
      ok := CreateIfFits(space);
    }

    /** syscall_thread_control, as far as it creates threads; false leaves the model. */
    method SyscallThreadControl(env: Env) returns (ok: bool)
      requires Valid() && caller < threadCount
      modifies this, tcbStore, threadList, queue, queue.data
      ensures Valid() && threadCount >= old(threadCount) && caller == old(caller)
      ensures match ThreadControl(old(State()), env)
        case Outside => !ok
        case Controlled(s') => ok && State() == s'
    {
      Record(caller);
      var regs := tcbStore[caller].regs;
      if regs.r0 != NILTHREAD && ThreadNo(regs.r0) < USER_THREAD_START {
        RefuseCaller(1);
        return true;
      }
      var dest := FindThreadByGlobalId(regs.r0);
      if dest.Some? {
        return false;
      }
      ok := CheckAndCreate(env);
    }

    /** softirq_svc; false is a panic, or leaves the model. */
    method SoftirqSvc(env: Env) returns (ok: bool, ghost ev: seq<Event>)
      requires Valid() && caller < threadCount
      requires Chain(State(), caller, {}) && Calling(State().states[caller])
      modifies this, tcbStore, threadList, queue, queue.data, mem
      ensures Valid() && threadCount >= old(threadCount)
      ensures match ServeCaller(old(State()), env)
        case Halt => !ok
        case Done(s', e) => ok && State() == s' && ev == e
    {
      ev := [];
      Record(caller);
      var no := tcbStore[caller].regs.r7;
      if no == SYS_KERNEL_INTERFACE {
        WriteRegs(caller, tcbStore[caller].regs.(r0 := env.kip0, r1 := env.kip1, r2 := env.kip2, r3 := env.kip3));
        SetThreadState(caller, Runnable);
        ok := true;
      } else if no == SYS_SPACE_CONTROL {
        ok, ev := SyscallSpaceControl(env);
        if ok {
          SetThreadState(caller, Runnable);
        }
      } else if no == SYS_THREAD_CONTROL {
        ok := SyscallThreadControl(env);
      } else if no == SYS_IPC {
        ok, ev := DoIpcFor(caller, false, {});
      } else if no == SYS_UNMAP {
        SetThreadState(caller, Runnable);
        ok := true;
      } else if no == SYS_SCHEDULE {
        ok := SyscallSchedule();
        if ok {
          SetThreadState(caller, Runnable);
        }
      } else {
        ok := no > SYS_SCHEDULE;
      }
    }

    /** softirq_execute: serve the pending call, clear its bit and go to sleep. */
    method SoftirqExecute(env: Env) returns (ok: bool, ghost ev: seq<Event>)
      requires Valid() && threadCount > ROOT && caller < threadCount
      requires currentThreadIdx == KERNEL
      requires softirqPending ==>
        Chain(State(), caller, {}) && Calling(State().states[caller])
      modifies this, tcbStore, threadList, queue, queue.data, mem
      ensures Valid() && threadCount >= old(threadCount)
      ensures match TakeStep(old(State()), KernelTurn(env))
        case Next(s', e) => ok && State() == s' && ev == e
        case _ => !ok
    {
      ok, ev := true, [];
      ghost var served := if softirqPending then ServeCaller(State(), env) else Done(State(), []);
      assert TakeStep(State(), KernelTurn(env)) == AfterTurn(served);
      if softirqPending {
        ok, ev := SoftirqSvc(env);
        if !ok {
          return;
        }
      }
      WritePending(false);
      SetThreadState(KERNEL, Inactive);
    }
  }
}
