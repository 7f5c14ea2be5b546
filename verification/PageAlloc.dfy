/** The page allocator of lib/buddy/linked_list_alloc.c. A free block's header lies in its first page,
    so the headers are modelled as arrays indexed by page number. */
module PageAlloc {
  import opened Words

  datatype Block = Block(start: nat, size: nat)

  // ---------- The free list as a sequence of blocks ----------

  /** Index of the first block that is large enough, |free| when there is none. */
  function FirstFit(free: seq<Block>, n: nat): (i: nat)
    ensures i <= |free|
    ensures forall j :: 0 <= j < i ==> free[j].size < n
    ensures i < |free| ==> free[i].size >= n
  {
    if free == [] || free[0].size >= n then 0 else
      var k := FirstFit(free[1..], n);
      assert forall j :: 0 < j < k + 1 ==> free[j] == free[1..][j - 1];
      k + 1
  }

  /** The block found is taken out of the list, or loses its first n pages and keeps its place. */
  function AllocPages(free: seq<Block>, n: nat): (r: (Option<nat>, seq<Block>)) {
    var i := FirstFit(free, n);
    if i == |free| then (None, free)
    else if free[i].size > n then (Some(free[i].start), free[i := Block(free[i].start + n, free[i].size - n)])
    else (Some(free[i].start), free[..i] + free[i + 1..])
  }

  function FreePages(free: seq<Block>, base: nat, n: nat): seq<Block> {
    [Block(base, n)] + free
  }

  predicate InBlock(b: Block, p: nat) {
    b.start <= p < b.start + b.size
  }

  /** Number of free blocks that hold page p. */
  function Holders(free: seq<Block>, p: nat): nat {
    if free == [] then 0 else (if InBlock(free[0], p) then 1 else 0) + Holders(free[1..], p)
  }

  ghost predicate InRange(free: seq<Block>, pages: nat) {
    forall i :: 0 <= i < |free| ==> free[i].size > 0 && free[i].start + free[i].size <= pages
  }

  /** Every page is either allocated or in exactly one free block. */
  ghost predicate Partition(free: seq<Block>, used: set<nat>, pages: nat) {
    && InRange(free, pages)
    && (forall p :: p in used ==> p < pages)
    && (forall p: nat :: p < pages ==> Holders(free, p) == if p in used then 0 else 1)
  }

  /** The pages base, ..., base + n - 1. */
  function Range(base: nat, n: nat): (r: set<nat>)
    ensures forall p :: p in r <==> base <= p < base + n
  {
    if n == 0 then {} else Range(base, n - 1) + {base + n - 1}
  }

  lemma {:induction false} HoldersConcat(a: seq<Block>, b: seq<Block>, p: nat)
    ensures Holders(a + b, p) == Holders(a, p) + Holders(b, p)
    decreases |a|
  {
    if a == [] {
      assert a + b == b;
    } else {
      assert (a + b)[1..] == a[1..] + b;
      HoldersConcat(a[1..], b, p);
    }
  }

  lemma {:induction false} HoldersAround(free: seq<Block>, i: nat, p: nat)
    requires i < |free|
    ensures Holders(free, p) == Holders(free[..i], p) + (if InBlock(free[i], p) then 1 else 0)
      + Holders(free[i + 1..], p)
  {
    assert free == free[..i] + ([free[i]] + free[i + 1..]);
    HoldersConcat(free[..i], [free[i]] + free[i + 1..], p);
    assert ([free[i]] + free[i + 1..])[1..] == free[i + 1..];
  }

  lemma {:induction false} InBlockIsHeld(free: seq<Block>, i: nat, p: nat)
    requires i < |free| && InBlock(free[i], p)
    ensures Holders(free, p) >= 1
  {
    HoldersAround(free, i, p);
  }

  // ---------- Single operations ----------

  /** Allocation hands out n pages that were free, the first of the first block that is large enough, makes exactly
      them used and loses none; it fails just when no free block is large enough. */
  lemma {:induction false} AllocKeepsPartition(free: seq<Block>, used: set<nat>, pages: nat, n: nat)
    requires Partition(free, used, pages) && n > 0
    ensures var (r, free') := AllocPages(free, n);
      match r
      case None => free' == free && forall i :: 0 <= i < |free| ==> free[i].size < n
      case Some(base) =>
        base + n <= pages && Range(base, n) !! used && Partition(free', used + Range(base, n), pages) &&
        exists i :: 0 <= i < |free| && free[i].start == base && free[i].size >= n &&
          forall j :: 0 <= j < i ==> free[j].size < n
  {
    var i := FirstFit(free, n);
    if i < |free| {
      var b := free[i];
      var (r, free') := AllocPages(free, n);
      forall p | p in Range(b.start, n)
        ensures p !in used
      {
        InBlockIsHeld(free, i, p);
      }
      forall p: nat | p < pages
        ensures Holders(free', p) == if p in used + Range(b.start, n) then 0 else 1
      {
        HoldersAround(free, i, p);
        if b.size > n {
          HoldersAround(free', i, p);
          assert free'[..i] == free[..i] && free'[i + 1..] == free[i + 1..];
        } else {
          HoldersConcat(free[..i], free[i + 1..], p);
        }
      }
    }
  }

  /** Freeing used pages makes exactly them free. */
  lemma {:induction false} FreeKeepsPartition(free: seq<Block>, used: set<nat>, pages: nat, base: nat, n: nat)
    requires Partition(free, used, pages) && n > 0 && Range(base, n) <= used
    ensures Partition(FreePages(free, base, n), used - Range(base, n), pages)
  {
    var free' := FreePages(free, base, n);
    assert free'[1..] == free;
    assert base + n - 1 in Range(base, n);
    assert forall i :: 0 < i < |free'| ==> free'[i] == free[i - 1];
  }

  /** Freeing a block and allocating its size again gives the block back and restores the list. */
  lemma {:induction false} FreeThenAlloc(free: seq<Block>, base: nat, n: nat)
    ensures AllocPages(FreePages(free, base, n), n) == (Some(base), free)
  {
    var free' := FreePages(free, base, n);
    assert FirstFit(free', n) == 0;
    assert free'[..0] + free'[1..] == free;
  }

  // ---------- Runs ----------

  datatype Op = Alloc(n: nat) | Free(base: nat, n: nat)

  /** A request is for at least one page, and what is freed is in use. */
  predicate Permitted(used: set<nat>, op: Op) {
    match op
    case Alloc(n) => n > 0
    case Free(base, n) => n > 0 && Range(base, n) <= used
  }

  datatype Pool = Pool(free: seq<Block>, used: set<nat>)

  function Apply(s: Pool, op: Op): Pool {
    match op
    case Alloc(n) =>
      var (r, free') := AllocPages(s.free, n);
      Pool(free', if r.Some? then s.used + Range(r.value, n) else s.used)
    case Free(base, n) => Pool(FreePages(s.free, base, n), s.used - Range(base, n))
  }

  function Run(s: Pool, ops: seq<Op>): Option<Pool>
    decreases |ops|
  {
    if ops == [] then Some(s)
    else if !Permitted(s.used, ops[0]) then None
    else Run(Apply(s, ops[0]), ops[1..])
  }

  /** init_linked_list_alloc_state: one block with every page. */
  function Initial(pages: nat): Pool {
    Pool([Block(0, pages)], {})
  }

  lemma {:induction false} RunFromPartition(s: Pool, pages: nat, ops: seq<Op>)
    requires Partition(s.free, s.used, pages) && Run(s, ops).Some?
    ensures Partition(Run(s, ops).value.free, Run(s, ops).value.used, pages)
    decreases |ops|
  {
    if ops != [] {
      match ops[0] {
        case Alloc(n) => AllocKeepsPartition(s.free, s.used, pages, n);
        case Free(base, n) => FreeKeepsPartition(s.free, s.used, pages, base, n);
      }
      RunFromPartition(Apply(s, ops[0]), pages, ops[1..]);
    }
  }

  /** Conservation: after any run of permitted requests on a fresh pool every page is either in use or
      in exactly one free block. */
  lemma {:induction false} PagesConserved(pages: nat, ops: seq<Op>)
    requires pages > 0 && Run(Initial(pages), ops).Some?
    ensures Partition(Run(Initial(pages), ops).value.free, Run(Initial(pages), ops).value.used, pages)
  {
    assert [Block(0, pages)][1..] == [];
    assert forall p: nat :: p < pages ==> Holders([Block(0, pages)], p) == 1;
    RunFromPartition(Initial(pages), pages, ops);
  }

  // ---------- Requests of one size ----------

  /** Free room for blocks of k pages, and pages left over, block by block. */
  function Room(free: seq<Block>, k: nat): nat
    requires k > 0
  {
    if free == [] then 0 else free[0].size / k + Room(free[1..], k)
  }

  function Rest(free: seq<Block>, k: nat): nat
    requires k > 0
  {
    if free == [] then 0 else free[0].size % k + Rest(free[1..], k)
  }

  lemma {:induction false} RoomConcat(a: seq<Block>, b: seq<Block>, k: nat)
    requires k > 0
    ensures Room(a + b, k) == Room(a, k) + Room(b, k) && Rest(a + b, k) == Rest(a, k) + Rest(b, k)
    decreases |a|
  {
    if a == [] {
      assert a + b == b;
    } else {
      assert (a + b)[1..] == a[1..] + b;
      RoomConcat(a[1..], b, k);
    }
  }

  lemma {:induction false} RoomAround(free: seq<Block>, i: nat, k: nat)
    requires i < |free| && k > 0
    ensures Room(free, k) == Room(free[..i], k) + free[i].size / k + Room(free[i + 1..], k)
    ensures Rest(free, k) == Rest(free[..i], k) + free[i].size % k + Rest(free[i + 1..], k)
  {
    assert free == free[..i] + ([free[i]] + free[i + 1..]);
    RoomConcat(free[..i], [free[i]] + free[i + 1..], k);
    assert ([free[i]] + free[i + 1..])[1..] == free[i + 1..];
  }

  lemma {:induction false} DivStep(x: nat, k: nat)
    requires k > 0 && x >= k
    ensures x / k == (x - k) / k + 1 && x % k == (x - k) % k
  {
    var q, r := (x - k) / k, (x - k) % k;
    assert x == (q + 1) * k + r;
    DivUnique(x, k, q + 1, r);
  }

  lemma {:induction false} DivUnique(x: nat, k: nat, q: nat, r: nat)
    requires k > 0 && r < k && x == q * k + r
    ensures x / k == q && x % k == r
  {
    var d := x / k - q;
    assert x / k * k + x % k == x;
    assert d * k == r - x % k;
    assert d >= 1 ==> d * k >= k;
    assert d <= -1 ==> d * k <= -1 * k;
  }

  /** An allocation of k pages takes up room for one, and fails just when there is none. */
  lemma {:induction false} AllocTakesRoom(free: seq<Block>, k: nat)
    requires k > 0
    ensures var (r, free') := AllocPages(free, k);
      (r.None? <==> Room(free, k) == 0) &&
      (r.Some? ==> Room(free', k) + 1 == Room(free, k) && Rest(free', k) == Rest(free, k))
  {
    var i := FirstFit(free, k);
    if i == |free| {
      NoRoom(free, k);
    } else {
      var b := free[i];
      var (r, free') := AllocPages(free, k);
      RoomAround(free, i, k);
      DivStep(b.size, k);
      if b.size > k {
        RoomAround(free', i, k);
        assert free'[..i] == free[..i] && free'[i + 1..] == free[i + 1..];
      } else {
        DivUnique(0, k, 0, 0);
        RoomConcat(free[..i], free[i + 1..], k);
      }
    }
  }

  lemma {:induction false} NoRoom(free: seq<Block>, k: nat)
    requires k > 0 && forall i :: 0 <= i < |free| ==> free[i].size < k
    ensures Room(free, k) == 0
    decreases |free|
  {
    if free != [] {
      DivUnique(free[0].size, k, 0, free[0].size);
      NoRoom(free[1..], k);
    }
  }

  /** Requests of k pages each; a freed block is one that was handed out, so the clients hold
      outstanding blocks. */
  datatype UniformOp = Take | Give(base: nat)

  /** The list and the number of outstanding blocks after a run of requests of k pages. */
  function UniformRun(free: seq<Block>, held: nat, k: nat, ops: seq<UniformOp>): Option<(seq<Block>, nat)>
    decreases |ops|
  {
    if ops == [] then Some((free, held))
    else
      match ops[0]
      case Take =>
        var (r, free') := AllocPages(free, k);
        UniformRun(free', if r.Some? then held + 1 else held, k, ops[1..])
      case Give(base) =>
        if held == 0 then None else UniformRun(FreePages(free, base, k), held - 1, k, ops[1..])
  }

  lemma {:induction false} UniformRoom(free: seq<Block>, held: nat, k: nat, ops: seq<UniformOp>)
    requires k > 0 && UniformRun(free, held, k, ops).Some?
    ensures var (free', held') := UniformRun(free, held, k, ops).value;
      Room(free', k) + held' == Room(free, k) + held
    decreases |ops|
  {
    if ops != [] {
      match ops[0]
      case Take =>
        AllocTakesRoom(free, k);
        var (r, free') := AllocPages(free, k);
        UniformRoom(free', if r.Some? then held + 1 else held, k, ops[1..]);
      case Give(base) =>
        assert FreePages(free, base, k)[1..] == free;
        DivUnique(k, k, 1, 0);
        UniformRoom(FreePages(free, base, k), held - 1, k, ops[1..]);
    }
  }

  /** When all requests are for k pages, an allocation succeeds exactly while fewer than pages / k
      blocks are outstanding: fragmentation never gets in the way. */
  lemma {:induction false} UniformNeverFragments(pages: nat, k: nat, ops: seq<UniformOp>)
    requires k > 0 && UniformRun(Initial(pages).free, 0, k, ops).Some?
    ensures var (free, held) := UniformRun(Initial(pages).free, 0, k, ops).value;
      AllocPages(free, k).0.Some? <==> held < pages / k
  {
    UniformRoom(Initial(pages).free, 0, k, ops);
    assert Initial(pages).free[1..] == [];
    AllocTakesRoom(UniformRun(Initial(pages).free, 0, k, ops).value.0, k);
  }

  // ---------- The linked list itself ----------

  const NULL: int := -1

  /** struct linked_list_node **: the list head, or the next field of a node. */
  datatype Slot = Head | NextOf(page: nat)

  function StartOf(l: seq<Block>, i: nat): int {
    if i < |l| then l[i].start else NULL
  }

  /** The chain from first through the header words is the list l. Every prev is NULL: this is why
      unlinking a node both through its neighbours and through the slot that names it does no harm. */
  ghost predicate Chained(l: seq<Block>, first: int, np: seq<nat>, nx: seq<int>, pv: seq<int>)
    requires |np| == |nx| == |pv|
  {
    && InRange(l, |np|)
    && first == StartOf(l, 0)
    && forall i :: 0 <= i < |l| ==>
         np[l[i].start] == l[i].size && nx[l[i].start] == StartOf(l, i + 1) && pv[l[i].start] == NULL
  }

  /** No page is in two blocks. */
  ghost predicate Apart(l: seq<Block>, pages: nat) {
    forall p: nat :: p < pages ==> Holders(l, p) <= 1
  }

  lemma {:induction false} BlocksApart(l: seq<Block>, pages: nat, i: nat, j: nat, p: nat)
    requires Apart(l, pages) && i < |l| && j < |l| && i != j && p < pages && InBlock(l[i], p)
    ensures !InBlock(l[j], p)
  {
    HoldersAround(l, i, p);
    if InBlock(l[j], p) {
      if j < i {
        InBlockIsHeld(l[..i], j, p);
      } else {
        InBlockIsHeld(l[i + 1..], j - i - 1, p);
      }
    }
  }

  /** The slot that names block k of the list. */
  function SlotOf(l: seq<Block>, k: nat): Slot
    requires k <= |l|
  {
    if k == 0 then Head else NextOf(l[k - 1].start)
  }

  /** Block k left out, by writing the slot that names it. */
  lemma {:induction false} ChainedWithout(l: seq<Block>, k: nat, first: int, np: seq<nat>, nx: seq<int>, pv: seq<int>,
      first': int, nx': seq<int>)
    requires |np| == |nx| == |pv| == |nx'| && Chained(l, first, np, nx, pv) && Apart(l, |np|) && k < |l|
    requires first' == if k == 0 then StartOf(l, k + 1) else first
    requires forall p :: 0 <= p < |nx| ==> nx'[p] == if k > 0 && p == l[k - 1].start then StartOf(l, k + 1) else nx[p]
    ensures Chained(l[..k] + l[k + 1..], first', np, nx', pv)
  {
    var l' := l[..k] + l[k + 1..];
    forall i | 0 <= i < |l'|
      ensures l'[i].size > 0 && l'[i].start + l'[i].size <= |np|
      ensures np[l'[i].start] == l'[i].size && nx'[l'[i].start] == StartOf(l', i + 1) && pv[l'[i].start] == NULL
    {
      WithoutAt(l, k, i);
      if k > 0 && i != k - 1 {
        BlocksApart(l, |np|, if i < k then i else i + 1, k - 1, l'[i].start);
      }
    }
    WithoutFirst(l, k);
  }

  lemma {:induction false} WithoutAt(l: seq<Block>, k: nat, i: nat)
    requires k < |l| && i < |l| - 1
    ensures var l' := l[..k] + l[k + 1..];
      l'[i] == l[if i < k then i else i + 1] && StartOf(l', i + 1) == StartOf(l, if i + 1 < k then i + 1 else i + 2)
  {
  }

  lemma {:induction false} WithoutFirst(l: seq<Block>, k: nat)
    requires k < |l|
    ensures StartOf(l[..k] + l[k + 1..], 0) == StartOf(l, if k == 0 then 1 else 0)
  {
  }

  /** The starts of the other blocks, and the page where block k is cut, are different pages. */
  lemma {:induction false} CutApart(l: seq<Block>, k: nat, n: nat, pages: nat, i: nat)
    requires Apart(l, pages) && InRange(l, pages) && k < |l| && i < |l| && i != k && 0 < n < l[k].size
    ensures l[i].start != l[k].start && l[i].start != l[k].start + n
  {
    BlocksApart(l, pages, k, i, l[k].start);
    BlocksApart(l, pages, k, i, l[k].start + n);
  }

  /** The header fields of block i of the list whose block k is shortened from the front. */
  lemma {:induction false} ShortenedHeader(l: seq<Block>, k: nat, n: nat, np: seq<nat>, nx: seq<int>, pv: seq<int>,
      np': seq<nat>, nx': seq<int>, pv': seq<int>, i: nat)
    requires |np| == |nx| == |pv| == |np'| == |nx'| == |pv'| && Apart(l, |np|) && InRange(l, |np|)
    requires k < |l| && i < |l| && 0 < n < l[k].size
    requires np[l[i].start] == l[i].size && nx[l[i].start] == StartOf(l, i + 1) && pv[l[i].start] == NULL
    requires forall p :: 0 <= p < |nx| ==>
      np'[p] == (if p == l[k].start + n then l[k].size - n else np[p]) &&
      pv'[p] == (if p == l[k].start + n then NULL else pv[p])
    requires forall p :: 0 <= p < |nx| && p != l[k].start ==>
      nx'[p] ==
        if k > 0 && p == l[k - 1].start then l[k].start + n
        else if p == l[k].start + n then StartOf(l, k + 1)
        else nx[p]
    ensures var l' := l[k := Block(l[k].start + n, l[k].size - n)];
      l'[i].start < |np| && np'[l'[i].start] == l'[i].size && nx'[l'[i].start] == StartOf(l', i + 1) &&
        pv'[l'[i].start] == NULL
  {
    if i != k {
      CutApart(l, k, n, |np|, i);
    }
    if k > 0 {
      CutApart(l, k, n, |np|, k - 1);
      if i != k - 1 && i != k {
        BlocksApart(l, |np|, i, k - 1, l[i].start);
      }
    }
  }

  /** Block k shortened by its first n pages, where the new header was written. */
  lemma {:induction false} ChainedShortened(l: seq<Block>, k: nat, n: nat, first: int, np: seq<nat>, nx: seq<int>,
      pv: seq<int>, first': int, np': seq<nat>, nx': seq<int>, pv': seq<int>)
    requires |np| == |nx| == |pv| == |np'| == |nx'| == |pv'| && Chained(l, first, np, nx, pv) && Apart(l, |np|)
    requires k < |l| && 0 < n < l[k].size
    requires first' == if k == 0 then l[k].start + n else first
    requires forall p :: 0 <= p < |nx| ==>
      np'[p] == (if p == l[k].start + n then l[k].size - n else np[p]) &&
      pv'[p] == (if p == l[k].start + n then NULL else pv[p])
    requires forall p :: 0 <= p < |nx| && p != l[k].start ==>
      nx'[p] ==
        if k > 0 && p == l[k - 1].start then l[k].start + n
        else if p == l[k].start + n then StartOf(l, k + 1)
        else nx[p]
    ensures Chained(l[k := Block(l[k].start + n, l[k].size - n)], first', np', nx', pv')
  {
    var l' := l[k := Block(l[k].start + n, l[k].size - n)];
    forall i | 0 <= i < |l'|
      ensures np'[l'[i].start] == l'[i].size && nx'[l'[i].start] == StartOf(l', i + 1) && pv'[l'[i].start] == NULL
    {
      ShortenedHeader(l, k, n, np, nx, pv, np', nx', pv', i);
    }
  }

  /** The next fields after a write through the slot. */
  function WriteSlot(slot: Slot, nx: seq<int>, v: int): (r: seq<int>)
    requires slot.NextOf? ==> slot.page < |nx|
    ensures |r| == |nx|
  {
    if slot.NextOf? then nx[slot.page := v] else nx
  }

  /** All words of the allocator: the head, and the three header fields page by page. */
  datatype Headers = Headers(first: int, np: seq<nat>, nx: seq<int>, pv: seq<int>)

  /** What splitting the node that slot names and unlinking it does to the words, for n > 0. */
  function TakenHeaders(w: Headers, slot: Slot, node: nat, n: nat): Headers
    requires |w.np| == |w.nx| == |w.pv| && node < |w.np| && (slot.NextOf? ==> slot.page < |w.nx|)
    requires w.np[node] > n ==> node + n < |w.np|
    requires NULL <= w.nx[node] < |w.pv|
  {
    if w.np[node] > n then
      Headers(if slot == Head then node + n else w.first,
            w.np[node + n := w.np[node] - n],
            WriteSlot(slot, w.nx[node + n := w.nx[node]][node := node + n], node + n),
            w.pv[node + n := node][node + n := NULL])
    else
      Headers(if slot == Head then w.nx[node] else w.first, w.np, WriteSlot(slot, w.nx, w.nx[node]),
            if w.nx[node] != NULL then w.pv[w.nx[node] := NULL] else w.pv)
  }

  /** The node whose next field names block k lies outside it. */
  lemma {:induction false} SlotApart(l: seq<Block>, pages: nat, k: nat, n: nat)
    requires InRange(l, pages) && Apart(l, pages) && k < |l|
    ensures k > 0 ==> l[k - 1].start != l[k].start && (n < l[k].size ==> l[k - 1].start != l[k].start + n)
  {
    if k > 0 {
      BlocksApart(l, pages, k, k - 1, l[k].start);
      if n < l[k].size {
        BlocksApart(l, pages, k, k - 1, l[k].start + n);
      }
    }
  }

  ghost predicate ListIs(l: seq<Block>, w: Headers) {
    |w.np| == |w.nx| == |w.pv| && Chained(l, w.first, w.np, w.nx, w.pv) && Apart(l, |w.np|)
  }

  ghost predicate HeadersKept(l: seq<Block>, w: Headers, w': Headers)
    requires |w.np| == |w.nx| == |w.pv| == |w'.np| == |w'.nx| == |w'.pv|
  {
    forall p: nat :: p < |w.np| && Holders(l, p) == 0 ==>
      w'.np[p] == w.np[p] && w'.nx[p] == w.nx[p] && w'.pv[p] == w.pv[p]
  }

  lemma {:induction false} HeadersInBlocks(l: seq<Block>, pages: nat, k: nat)
    requires k < |l| && InRange(l, pages)
    ensures forall p: nat :: InBlock(l[k], p) ==> Holders(l, p) > 0
    ensures k > 0 ==> Holders(l, l[k - 1].start) > 0
    ensures k + 1 < |l| ==> Holders(l, l[k + 1].start) > 0
  {
    forall p: nat | InBlock(l[k], p)
      ensures Holders(l, p) > 0
    {
      InBlockIsHeld(l, k, p);
    }
    if k > 0 { InBlockIsHeld(l, k - 1, l[k - 1].start); }
    if k + 1 < |l| { InBlockIsHeld(l, k + 1, l[k + 1].start); }
  }

  lemma {:induction false} ShortenedApart(l: seq<Block>, k: nat, n: nat, pages: nat)
    requires Apart(l, pages) && k < |l| && n < l[k].size
    ensures Apart(l[k := Block(l[k].start + n, l[k].size - n)], pages)
  {
    var l' := l[k := Block(l[k].start + n, l[k].size - n)];
    assert l'[..k] == l[..k] && l'[k + 1..] == l[k + 1..];
    forall p: nat | p < pages
      ensures Holders(l', p) <= 1
    {
      HoldersAround(l, k, p);
      HoldersAround(l', k, p);
    }
  }

  lemma {:induction false} WithoutApart(l: seq<Block>, k: nat, pages: nat)
    requires Apart(l, pages) && k < |l|
    ensures Apart(l[..k] + l[k + 1..], pages)
  {
    var l' := l[..k] + l[k + 1..];
    forall p: nat | p < pages
      ensures Holders(l', p) <= 1
    {
      HoldersAround(l, k, p);
      HoldersConcat(l[..k], l[k + 1..], p);
    }
  }

  /** Unlinking block k, all of which is taken. */
  lemma {:induction false} WholeTaken(l: seq<Block>, k: nat, w: Headers)
    requires ListIs(l, w) && k < |l|
    ensures var w' := TakenHeaders(w, SlotOf(l, k), l[k].start, l[k].size);
      ListIs(l[..k] + l[k + 1..], w') && HeadersKept(l, w, w')
  {
    var w' := TakenHeaders(w, SlotOf(l, k), l[k].start, l[k].size);
    assert w'.pv == w.pv;
    ChainedWithout(l, k, w.first, w.np, w.nx, w.pv, w'.first, w'.nx);
    WithoutApart(l, k, |w.np|);
    HeadersInBlocks(l, |w.np|, k);
  }

  /** Splitting block k and unlinking its first part. */
  lemma {:induction false} PartTaken(l: seq<Block>, k: nat, n: nat, w: Headers)
    requires ListIs(l, w) && k < |l| && 0 < n < l[k].size
    ensures var w' := TakenHeaders(w, SlotOf(l, k), l[k].start, n);
      ListIs(l[k := Block(l[k].start + n, l[k].size - n)], w') && HeadersKept(l, w, w')
  {
    var w' := TakenHeaders(w, SlotOf(l, k), l[k].start, n);
    SlotApart(l, |w.np|, k, n);
    ChainedShortened(l, k, n, w.first, w.np, w.nx, w.pv, w'.first, w'.np, w'.nx, w'.pv);
    ShortenedApart(l, k, n, |w.np|);
    HeadersInBlocks(l, |w.np|, k);
  }

  lemma {:induction false} AllocPagesIs(l: seq<Block>, n: nat, k: nat)
    requires k == FirstFit(l, n) && k < |l|
    ensures AllocPages(l, n).0 == Some(l[k].start)
    ensures l[k].size > n ==> AllocPages(l, n).1 == l[k := Block(l[k].start + n, l[k].size - n)]
    ensures l[k].size == n ==> AllocPages(l, n).1 == l[..k] + l[k + 1..]
    ensures l[k].size >= n
  {
  }

  /** Taking n pages from block k, the first that fits, is AllocPages on the list. */
  lemma {:induction false} Taken(l: seq<Block>, n: nat, w: Headers, k: nat, l': seq<Block>)
    requires ListIs(l, w) && n > 0 && k < |l| && l[k].size >= n
    requires l[k].size > n ==> l' == l[k := Block(l[k].start + n, l[k].size - n)]
    requires l[k].size == n ==> l' == l[..k] + l[k + 1..]
    ensures var w' := TakenHeaders(w, SlotOf(l, k), l[k].start, n);
      ListIs(l', w') && HeadersKept(l, w, w')
  {
    if l[k].size > n {
      PartTaken(l, k, n, w);
    } else {
      WholeTaken(l, k, w);
    }
  }

  /** A new header in front of the list. */
  lemma {:induction false} Freed(l: seq<Block>, w: Headers, base: nat, n: nat)
    requires ListIs(l, w) && n > 0 && base + n <= |w.np|
    requires forall p: nat :: base <= p < base + n ==> Holders(l, p) == 0
    ensures ListIs(FreePages(l, base, n), Headers(base, w.np[base := n], w.nx[base := w.first], w.pv[base := NULL]))
  {
    var l' := FreePages(l, base, n);
    assert l'[1..] == l;
    forall i | 0 <= i < |l|
      ensures l[i].start != base && l'[i + 1] == l[i] && StartOf(l', i + 2) == StartOf(l, i + 1)
    {
      InBlockIsHeld(l, i, l[i].start);
    }
    assert forall i :: 0 < i < |l'| ==> l'[i] == l[i - 1];
  }

  lemma {:induction false} FirstFitIs(l: seq<Block>, n: nat, k: nat)
    requires k <= |l| && (forall j :: 0 <= j < k ==> l[j].size < n) && (k < |l| ==> l[k].size >= n)
    ensures FirstFit(l, n) == k
  {
  }

  class Allocator {
    const pageCount: nat
    var firstFree: int
    const numPages: array<nat>
    const next: array<int>
    const prev: array<int>
    ghost var free: seq<Block>

    /** The shape of the tables. */
    ghost predicate Shaped()
      reads this
    {
      numPages.Length == next.Length == prev.Length == pageCount && next != prev &&
        (numPages as object) !in {next as object, prev}
    }

    ghost predicate Valid()
      reads this, numPages, next, prev
    {
      Shaped() && ListIs(free, AllHeaders())
    }

    ghost function AllHeaders(): (w: Headers)
      reads this, numPages, next, prev
      requires Shaped()
      ensures |w.np| == |w.nx| == |w.pv| == pageCount
    {
      Headers(firstFree, numPages[..], next[..], prev[..])
    }

    constructor (pages: nat)
      requires pages > 0
      ensures Valid() && pageCount == pages && free == Initial(pages).free
      ensures fresh(numPages) && fresh(next) && fresh(prev)
    {
      pageCount := pages;
      numPages := new nat[pages](_ => 0);
      next := new int[pages](_ => NULL);
      prev := new int[pages](_ => NULL);
      firstFree := 0;
      free := [Block(0, pages)];
      new;
      numPages[0] := pages;
      assert free[1..] == [];
      assert forall p: nat :: p < pages ==> Holders(free, p) <= 1;
    }

    function Deref(slot: Slot): int
      reads this, next
      requires Shaped() && (slot.NextOf? ==> slot.page < pageCount)
    {
      match slot
      case Head => firstFree
      case NextOf(p) => next[p]
    }

    method Assign(slot: Slot, v: int)
      requires Shaped() && (slot.NextOf? ==> slot.page < pageCount)
      modifies this`firstFree, next
      ensures firstFree == if slot == Head then v else old(firstFree)
      ensures next[..] == if slot.NextOf? then old(next[..])[slot.page := v] else old(next[..])
    {
      match slot
      case Head => firstFree := v;
      case NextOf(p) => next[p] := v;
    }

    /** split_node_at. */
    method SplitNodeAt(node: nat, splitAt: nat)
      requires Shaped() && node + splitAt < pageCount && splitAt <= numPages[node]
      modifies numPages, next, prev
      ensures numPages[..] == old(numPages[..])[node + splitAt := old(numPages[node]) - splitAt]
      ensures next[..] == old(next[..])[node + splitAt := old(next[node])][node := node + splitAt]
      ensures prev[..] == old(prev[..])[node + splitAt := node]
    {
      var newSize := numPages[node] - splitAt;
      var newNode := node + splitAt;
      prev[newNode] := node;
      next[newNode] := next[node];
      numPages[newNode] := newSize;
      next[node] := newNode;
    }

    /** delete_node_from_list: right for a node whose prev is NULL. */
    method DeleteNodeFromList(slot: Slot)
      requires Shaped() && (slot.NextOf? ==> slot.page < pageCount) && 0 <= Deref(slot) < pageCount
      requires NULL <= prev[Deref(slot)] < pageCount && NULL <= next[Deref(slot)] < pageCount
      requires prev[Deref(slot)] != NULL ==> slot == Head && prev[Deref(slot)] == next[Deref(slot)] == firstFree
      modifies this`firstFree, next, prev
      ensures var node := old(Deref(slot));
        old(prev[node]) == NULL ==>
          firstFree == (if slot == Head then old(next[node]) else old(firstFree)) &&
          next[..] == (if slot.NextOf? then old(next[..])[slot.page := old(next[node])] else old(next[..])) &&
          prev[..] == (if old(next[node]) != NULL then old(prev[..])[old(next[node]) := NULL] else old(prev[..]))
      ensures var node := old(Deref(slot));
        old(prev[node]) != NULL ==> firstFree == node && next[..] == old(next[..]) && prev[..] == old(prev[..])
    {
      var before, after := prev[Deref(slot)], next[Deref(slot)];
      if before != NULL {
        next[before] := after;
      }
      if after != NULL {
        prev[after] := before;
      }
      Assign(slot, next[Deref(slot)]);
    }

    /** The header of block i. */
    ghost predicate HeaderOk(l: seq<Block>, i: nat)
      reads this, numPages, next, prev
      requires Shaped() && i < |l|
    {
      l[i].start < pageCount && numPages[l[i].start] == l[i].size && next[l[i].start] == StartOf(l, i + 1) &&
        prev[l[i].start] == NULL
    }

    lemma {:induction false} HeadersOk()
      requires Valid()
      ensures firstFree == StartOf(free, 0) && forall i :: 0 <= i < |free| ==> HeaderOk(free, i)
    {
    }

    /** The search of linked_list_alloc_pages: the slot that names the first block that is large enough. */
    method FindFit(n: nat, ghost l: seq<Block>) returns (current: Slot, ghost k: nat)
      requires Shaped() && firstFree == StartOf(l, 0) && forall i :: 0 <= i < |l| ==> HeaderOk(l, i)
      ensures k <= |l| && current == SlotOf(l, k) && (current.NextOf? ==> current.page < pageCount) &&
        Deref(current) == StartOf(l, k)
      ensures (forall j :: 0 <= j < k ==> l[j].size < n) && (k < |l| ==> l[k].size >= n)
      ensures n == 0 ==> k == 0
    {
      current := Head;
      k := 0;
      while Deref(current) != NULL && numPages[Deref(current)] < n
        invariant k <= |l| && current == SlotOf(l, k) && (current.NextOf? ==> current.page < pageCount) &&
          Deref(current) == StartOf(l, k)
        invariant k < |l| ==> HeaderOk(l, k)
        invariant forall j :: 0 <= j < k ==> l[j].size < n
        invariant n == 0 ==> k == 0
        decreases |l| - k
      {
        current := NextOf(Deref(current));
        k := k + 1;
      }
    }

    /** Splitting the node that slot names if it is too large, and unlinking it. */
    method Take(slot: Slot, n: nat) returns (base: int)
      requires Shaped() && (slot.NextOf? ==> slot.page < pageCount) && 0 <= Deref(slot) < pageCount
      requires var node := Deref(slot);
        prev[node] == NULL && NULL <= next[node] < pageCount && n <= numPages[node] &&
        (n < numPages[node] ==> node + n < pageCount) &&
        (slot.NextOf? ==> slot.page != node && (n < numPages[node] ==> slot.page != node + n)) &&
        (n == 0 ==> slot == Head && numPages[node] > 0)
      modifies this`firstFree, numPages, next, prev
      ensures base == old(Deref(slot))
      ensures n > 0 ==> AllHeaders() == TakenHeaders(old(AllHeaders()), slot, base, n)
      ensures n == 0 ==> firstFree == base && next[base] == base
    {
      if numPages[Deref(slot)] > n {
        SplitNodeAt(Deref(slot), n);
      }
      base := Deref(slot);
      DeleteNodeFromList(slot);
    }

    /** Taking n pages from a block that is large enough, which slot names. */
    method TakeFrom(slot: Slot, n: nat, ghost k: nat) returns (base: int)
      requires Valid() && k < |free| && slot == SlotOf(free, k) && free[k].size >= n && (n == 0 ==> k == 0)
      modifies this`firstFree, numPages, next, prev
      ensures base == free[k].start
      ensures n > 0 ==> AllHeaders() == TakenHeaders(old(AllHeaders()), slot, base, n)
      ensures n == 0 ==> firstFree == base && next[base] == base
    {
      HeadersOk();
      SlotApart(free, pageCount, k, n);
      base := Take(slot, n);
    }

    /** linked_list_alloc_pages. For a request of at least one page it does what AllocPages says, and
        no header word of a page that was not free is written. A request of no pages from a list that
        is not empty hands out the first block and leaves it in the list, linked to itself. */
    method Alloc(n: nat) returns (base: int)
      requires Valid()
      modifies this`firstFree, this`free, numPages, next, prev
      ensures n > 0 ==> Valid() && (if base == NULL then None else Some(base), free) == AllocPages(old(free), n)
      ensures n > 0 ==> HeadersKept(old(free), old(AllHeaders()), AllHeaders())
      ensures n == 0 && old(free) != [] ==>
        base == old(free)[0].start && firstFree == base && next[base] == base
    {
      ghost var k;
      var current;
      HeadersOk();
      current, k := FindFit(n, free);
      FirstFitIs(free, n, k);
      if Deref(current) == NULL {
        return NULL;
      }
      ghost var l, w := free, AllHeaders();
      base := TakeFrom(current, n, k);
      if n > 0 {
        AllocPagesIs(l, n, k);
        Taken(l, n, w, k, AllocPages(l, n).1);
        free := AllocPages(l, n).1;
        assert ListIs(free, AllHeaders());
      }
    }

    /** linked_list_free_pages, for pages that are in no free block. */
    method Free(base: nat, n: nat)
      requires Valid() && n > 0 && base + n <= pageCount
      requires forall p: nat :: base <= p < base + n ==> Holders(free, p) == 0
      modifies this`firstFree, this`free, numPages, next, prev
      ensures Valid() && free == FreePages(old(free), base, n)
      ensures forall p: nat :: p < pageCount && p != base ==>
        numPages[p] == old(numPages[p]) && next[p] == old(next[p]) && prev[p] == old(prev[p])
    {
      ghost var w := AllHeaders();
      numPages[base], prev[base], next[base] := n, NULL, firstFree;
      firstFree := base;
      Freed(free, w, base, n);
      free := FreePages(free, base, n);
    }
  }
}
