/** Loading the kernel and the root server: boot/boot.c, and load_elf_file of lib/elf/elf.c. */
module Boot {
  import opened Alignment
  import opened ElfImage
  import opened ElfSymbols
  import opened Memory
  import opened Words

  // ---------- Loading segments ----------

  const MAX_SEGMENTS: nat := 4

  /** A program header: flags has bit 1 set for a writable segment. */
  datatype Phdr =
    | Load(offset: Word, filesz: Word, memsz: Word, vaddr: Word, align: Word, flags: nat)
    | Dynamic(vaddr: Word)
    | Other

  predicate WritableFlags(flags: nat) {
    flags / 2 % 2 == 1
  }

  /** elf_flags_to_libelf_access: the bits for read and execute change places. */
  function Access(flags: nat): nat {
    flags / 4 % 2 + (flags / 2 % 2) * 2 + (flags % 2) * 4
  }

  predicate Writable(seg: Segment) {
    seg.perm / 2 % 2 == 1
  }

  lemma {:induction false} AccessKeepsWritable(flags: nat)
    ensures Access(flags) / 2 % 2 == 1 <==> WritableFlags(flags)
  {
  }

  /** What is loaded so far: the segments, the dynamic tags and the end of the allocated memory. */
  datatype Loading = Loading(mem: seq<Byte>, segs: seq<Segment>, dyn: Word, marker: Word)

  /** elf_alloc_rw: where the segment goes. */
  function RwPlace(marker: Word, vaddr: Word, align: Word): Word
    requires align > 0
  {
    (AlignPtr(marker, align) + vaddr % align) % WORD_LIMIT
  }

  /** One program header; None when the loader writes outside the memory or its four segments, or divides
      by an alignment of zero. */
  function LoadPhdr(l: Loading, base: Word, phdr: Phdr): Option<Loading> {
    match phdr
    case Other => Some(l)
    case Dynamic(vaddr) => Some(l.(dyn := Translate(l.segs, vaddr)))
    case Load(offset, filesz, memsz, vaddr, align, flags) =>
      if |l.segs| >= MAX_SEGMENTS then None
      else if !WritableFlags(flags) then
        Some(l.(segs := l.segs + [Segment(vaddr, memsz, (base + offset) % WORD_LIMIT, Access(flags))]))
      else if align == 0 then None
      else LoadRw(l, base, phdr, RwPlace(l.marker, vaddr, align))
  }

  /** A writable segment at loc: the file's bytes are copied there and the rest is zeroed. */
  function LoadRw(l: Loading, base: Word, p: Phdr, loc: Word): Option<Loading>
    requires p.Load?
  {
    if loc + p.filesz > |l.mem| || base + p.offset + p.filesz > |l.mem| || p.memsz < p.filesz ||
      loc + p.memsz > |l.mem| then None
    else
      var mem := ZeroBytes(CopyBytes(l.mem, loc, base + p.offset, p.filesz), loc + p.filesz, p.memsz - p.filesz);
      Some(Loading(mem, l.segs + [Segment(p.vaddr, p.memsz, loc, Access(p.flags))], l.dyn,
        (loc + p.memsz) % WORD_LIMIT))
  }

  function LoadPhdrs(l: Loading, base: Word, phdrs: seq<Phdr>): Option<Loading>
    decreases |phdrs|
  {
    if phdrs == [] then Some(l)
    else
      match LoadPhdr(l, base, phdrs[0])
      case None => None
      case Some(l') => LoadPhdrs(l', base, phdrs[1..])
  }

  // ---------- Placement ----------

  /** The end of the memory that the writable segments need, in unbounded arithmetic. */
  function End(marker: nat, phdrs: seq<Phdr>): (e: nat)
    requires Aligned(phdrs)
    ensures e >= marker
    decreases |phdrs|
  {
    if phdrs == [] then marker
    else if IsRw(phdrs[0]) then End(IdealPlace(marker, phdrs[0]) + phdrs[0].memsz, phdrs[1..])
    else End(marker, phdrs[1..])
  }

  predicate IsRw(p: Phdr) {
    p.Load? && WritableFlags(p.flags)
  }

  /** Every writable segment has a power of two as its alignment. */
  predicate Aligned(phdrs: seq<Phdr>) {
    forall i :: 0 <= i < |phdrs| && IsRw(phdrs[i]) ==> IsAlignment(phdrs[i].align) && phdrs[i].align > 0
  }

  function IdealPlace(marker: nat, p: Phdr): (r: nat)
    requires IsRw(p) && p.align > 0
    ensures r >= marker
  {
    LeastAlignedIs(marker, p.align);
    LeastAligned(marker, p.align) + p.vaddr % p.align
  }

  /** The loadable headers, in order. */
  function Loads(phdrs: seq<Phdr>): seq<Phdr>
    decreases |phdrs|
  {
    if phdrs == [] then [] else (if phdrs[0].Load? then [phdrs[0]] else []) + Loads(phdrs[1..])
  }

  /** The writable segments lie one after the other from address lo to address hi. */
  predicate Stacked(segs: seq<Segment>, lo: nat, hi: nat)
    decreases |segs|
  {
    if segs == [] then lo <= hi
    else if !Writable(segs[0]) then Stacked(segs[1..], lo, hi)
    else lo <= segs[0].loaded && Stacked(segs[1..], segs[0].loaded + segs[0].size, hi)
  }

  predicate SameOffset(a: nat, b: nat, align: nat)
    requires align > 0
  {
    a % align == b % align
  }

  /** Segment seg is a faithful placement of header p: a writable one keeps its address modulo its
      alignment, another stays in the file. */
  predicate Places(seg: Segment, p: Phdr, base: Word) {
    && p.Load? && seg.linked == p.vaddr && seg.size == p.memsz && (Writable(seg) <==> WritableFlags(p.flags))
    && (if Writable(seg) then p.align > 0 && SameOffset(seg.loaded, p.vaddr, p.align)
        else seg.loaded == (base + p.offset) % WORD_LIMIT)
  }

  lemma {:induction false} StackedJoin(a: seq<Segment>, b: seq<Segment>, lo: nat, mid: nat, hi: nat)
    requires Stacked(a, lo, mid) && Stacked(b, mid, hi)
    ensures Stacked(a + b, lo, hi)
    decreases |a|
  {
    if a == [] {
      assert a + b == b;
      StackedLower(b, lo, mid, hi);
    } else {
      assert (a + b)[1..] == a[1..] + b;
      StackedJoin(a[1..], b, if Writable(a[0]) then a[0].loaded + a[0].size else lo, mid, hi);
    }
  }

  lemma {:induction false} StackedLower(a: seq<Segment>, lo: nat, lo': nat, hi: nat)
    requires lo <= lo' && Stacked(a, lo', hi)
    ensures Stacked(a, lo, hi)
    decreases |a|
  {
    if a != [] && !Writable(a[0]) {
      StackedLower(a[1..], lo, lo', hi);
    }
  }

  lemma {:induction false} StackedBounds(a: seq<Segment>, lo: nat, hi: nat, i: nat)
    requires Stacked(a, lo, hi) && i < |a| && Writable(a[i])
    ensures lo <= a[i].loaded && a[i].loaded + a[i].size <= hi
    decreases |a|
  {
    StackedRange(a, lo, hi);
    if i > 0 {
      StackedBounds(a[1..], if Writable(a[0]) then a[0].loaded + a[0].size else lo, hi, i - 1);
    } else {
      StackedRange(a[1..], a[0].loaded + a[0].size, hi);
    }
  }

  lemma {:induction false} StackedRange(a: seq<Segment>, lo: nat, hi: nat)
    requires Stacked(a, lo, hi)
    ensures lo <= hi
    decreases |a|
  {
    if a != [] {
      StackedRange(a[1..], if Writable(a[0]) then a[0].loaded + a[0].size else lo, hi);
    }
  }

  /** Stacked segments increase and do not overlap. */
  lemma {:induction false} StackedIsIncreasing(a: seq<Segment>, lo: nat, hi: nat, i: nat, j: nat)
    requires Stacked(a, lo, hi) && i < j < |a| && Writable(a[i]) && Writable(a[j])
    ensures a[i].loaded + a[i].size <= a[j].loaded
    decreases |a|
  {
    if i == 0 {
      StackedBounds(a[1..], a[0].loaded + a[0].size, hi, j - 1);
    } else {
      StackedIsIncreasing(a[1..], if Writable(a[0]) then a[0].loaded + a[0].size else lo, hi, i - 1, j - 1);
    }
  }

  lemma {:induction false} NoWrap(x: nat, off: nat)
    requires x + off < WORD_LIMIT
    ensures (x % WORD_LIMIT + off) % WORD_LIMIT == x + off
  {
  }

  lemma {:induction false} PlaceWithin(marker: Word, vaddr: Word, align: Word, least: nat)
    requires align > 0 && AlignPtr(marker, align) == least % WORD_LIMIT && least + vaddr % align < WORD_LIMIT
    ensures RwPlace(marker, vaddr, align) == least + vaddr % align
  {
    NoWrap(least, vaddr % align);
  }

  lemma {:induction false} OffsetOfMultiple(k: nat, vaddr: nat, align: nat)
    requires align > 0
    ensures SameOffset(k * align + vaddr % align, vaddr, align)
  {
    KeepsOffset(k, vaddr % align, align);
  }

  lemma {:induction false} PlaceIsIdeal(marker: Word, p: Phdr)
    requires IsRw(p) && IsAlignment(p.align) && p.align > 0 && IdealPlace(marker, p) < WORD_LIMIT
    ensures RwPlace(marker, p.vaddr, p.align) == IdealPlace(marker, p)
    ensures SameOffset(IdealPlace(marker, p), p.vaddr, p.align)
  {
    AlignPtrIsLeast(marker, p.align);
    PlaceWithin(marker, p.vaddr, p.align, LeastAligned(marker, p.align));
    OffsetOfMultiple((marker + p.align - 1) / p.align, p.vaddr, p.align);
  }

  /** The place of header p is above the old end of the allocated memory, ends at the new one, and has the
      offset that its alignment asks for. */
  predicate Rises(l: Loading, p: Phdr, l1: Loading) {
    if IsRw(p) then
      && |l1.segs| == |l.segs| + 1 && l.marker <= l1.segs[|l.segs|].loaded
      && l1.segs[|l.segs|].loaded + p.memsz == l1.marker
      && p.align > 0 && SameOffset(l1.segs[|l.segs|].loaded, p.vaddr, p.align)
    else l1.marker == l.marker
  }

  /** Every step of loading a file rises. */
  predicate Steady(l: Loading, base: Word, phdrs: seq<Phdr>)
    decreases |phdrs|
  {
    phdrs == [] ||
    match LoadPhdr(l, base, phdrs[0])
    case None => false
    case Some(l1) => Rises(l, phdrs[0], l1) && Steady(l1, base, phdrs[1..])
  }

  lemma {:induction false} RwRises(l: Loading, base: Word, p: Phdr, loc: Word, l1: Loading)
    requires IsRw(p) && LoadRw(l, base, p, loc) == Some(l1) && l.marker <= loc && loc + p.memsz < WORD_LIMIT
    requires p.align > 0 && SameOffset(loc, p.vaddr, p.align)
    ensures Rises(l, p, l1) && l1.marker == loc + p.memsz
  {
  }

  /** When the segments end below the top of the address space, every step rises. */
  lemma {:induction false} FitsIsSteady(l: Loading, base: Word, phdrs: seq<Phdr>, l': Loading)
    requires LoadPhdrs(l, base, phdrs) == Some(l') && Aligned(phdrs) && End(l.marker, phdrs) < WORD_LIMIT
    ensures Steady(l, base, phdrs) && l'.marker == End(l.marker, phdrs)
    decreases |phdrs|
  {
    if phdrs != [] {
      var p := phdrs[0];
      var l1 := LoadPhdr(l, base, p).value;
      if IsRw(p) {
        PlaceIsIdeal(l.marker, p);
        RwRises(l, base, p, RwPlace(l.marker, p.vaddr, p.align), l1);
      }
      FitsIsSteady(l1, base, phdrs[1..], l');
    }
  }

  /** The file holds what the header says of a writable segment, and no more of it than the segment has room for. */
  predicate Supplied(len: nat, base: Word, p: Phdr) {
    IsRw(p) ==> p.filesz <= p.memsz && base + p.offset + p.filesz <= len
  }

  /** The writable segments, stacked from the marker on, end inside the memory. */
  predicate StackFits(len: nat, marker: nat, phdrs: seq<Phdr>)
    requires Aligned(phdrs)
  {
    (exists i :: 0 <= i < |phdrs| && IsRw(phdrs[i])) ==> End(marker, phdrs) <= len
  }

  lemma {:induction false} NoneWritable(marker: nat, phdrs: seq<Phdr>)
    requires Aligned(phdrs) && forall i :: 0 <= i < |phdrs| ==> !IsRw(phdrs[i])
    ensures End(marker, phdrs) == marker
    decreases |phdrs|
  {
    if phdrs != [] {
      NoneWritable(marker, phdrs[1..]);
    }
  }

  /** The end of the allocated memory after header p. */
  function NextMarker(marker: nat, p: Phdr): nat
    requires IsRw(p) ==> p.align > 0
  {
    if IsRw(p) then IdealPlace(marker, p) + p.memsz else marker
  }

  lemma {:induction false} FirstEnds(marker: nat, phdrs: seq<Phdr>)
    requires Aligned(phdrs) && phdrs != []
    ensures Aligned(phdrs[1..]) && NextMarker(marker, phdrs[0]) <= End(marker, phdrs)
    ensures End(marker, phdrs) == End(NextMarker(marker, phdrs[0]), phdrs[1..])
  {
  }

  lemma {:induction false} FirstFits(len: nat, marker: nat, phdrs: seq<Phdr>)
    requires Aligned(phdrs) && phdrs != []
    ensures var next := NextMarker(marker, phdrs[0]);
      StackFits(len, marker, phdrs) <==> (IsRw(phdrs[0]) ==> next <= len) && StackFits(len, next, phdrs[1..])
  {
    var rest := phdrs[1..];
    FirstEnds(marker, phdrs);
    assert forall i :: 0 < i < |phdrs| ==> phdrs[i] == rest[i - 1];
    if IsRw(phdrs[0]) && forall i :: 0 <= i < |rest| ==> !IsRw(rest[i]) {
      NoneWritable(NextMarker(marker, phdrs[0]), rest);
    }
  }

  lemma {:induction false} RwLoadsIff(l: Loading, base: Word, p: Phdr, loc: Word)
    requires IsRw(p) && loc + p.memsz < WORD_LIMIT
    ensures LoadRw(l, base, p, loc).Some? <==> Supplied(|l.mem|, base, p) && loc + p.memsz <= |l.mem|
    ensures LoadRw(l, base, p, loc).Some? ==>
      var l1 := LoadRw(l, base, p, loc).value;
      |l1.mem| == |l.mem| && |l1.segs| == |l.segs| + 1 && l1.marker == loc + p.memsz
  {
  }

  lemma {:induction false} PhdrLoadsIff(l: Loading, base: Word, p: Phdr)
    requires IsRw(p) ==> IsAlignment(p.align) && p.align > 0
    requires NextMarker(l.marker, p) < WORD_LIMIT
    ensures LoadPhdr(l, base, p).Some? <==>
      (p.Load? ==> |l.segs| < 4) && Supplied(|l.mem|, base, p) && (IsRw(p) ==> NextMarker(l.marker, p) <= |l.mem|)
    ensures LoadPhdr(l, base, p).Some? ==>
      var l1 := LoadPhdr(l, base, p).value;
      |l1.mem| == |l.mem| && |l1.segs| == |l.segs| + (if p.Load? then 1 else 0) && l1.marker == NextMarker(l.marker, p)
  {
    if IsRw(p) {
      PlaceIsIdeal(l.marker, p);
      RwLoadsIff(l, base, p, RwPlace(l.marker, p.vaddr, p.align));
      assert NextMarker(l.marker, p) == RwPlace(l.marker, p.vaddr, p.align) + p.memsz;
      assert LoadPhdr(l, base, p).Some? ==>
          LoadPhdr(l, base, p) == LoadRw(l, base, p, RwPlace(l.marker, p.vaddr, p.align));
    }
  }

  predicate AllSupplied(len: nat, base: Word, phdrs: seq<Phdr>) {
    forall i :: 0 <= i < |phdrs| ==> Supplied(len, base, phdrs[i])
  }

  lemma {:induction false} FirstSupplied(len: nat, base: Word, phdrs: seq<Phdr>)
    requires phdrs != []
    ensures AllSupplied(len, base, phdrs) <==> Supplied(len, base, phdrs[0]) && AllSupplied(len, base, phdrs[1..])
  {
    assert forall i :: 0 < i < |phdrs| ==> phdrs[i] == phdrs[1..][i - 1];
  }

  lemma {:induction false} SegmentsStay(l: Loading, base: Word, phdrs: seq<Phdr>, l': Loading)
    requires LoadPhdrs(l, base, phdrs) == Some(l')
    ensures |l'.segs| == |l.segs| + |Loads(phdrs)| && l'.segs[..|l.segs|] == l.segs
    ensures (forall i :: 0 <= i < |phdrs| ==> !phdrs[i].Dynamic?) ==> l'.dyn == l.dyn
    decreases |phdrs|
  {
    if phdrs != [] {
      var l1 := LoadPhdr(l, base, phdrs[0]).value;
      SegmentsStay(l1, base, phdrs[1..], l');
      assert l'.segs[..|l.segs|] == l'.segs[..|l1.segs|][..|l.segs|];
    }
  }

  /** The dynamic tags are those of the last header of their kind, header k, looked for in the segments loaded before
      it. */
  lemma {:induction false} DynamicIs(l: Loading, base: Word, phdrs: seq<Phdr>, l': Loading, k: nat)
    requires LoadPhdrs(l, base, phdrs) == Some(l') && k < |phdrs| && phdrs[k].Dynamic?
    requires forall i :: k < i < |phdrs| ==> !phdrs[i].Dynamic?
    ensures var n := |l.segs| + |Loads(phdrs[..k])|;
      n <= |l'.segs| && l'.dyn == Translate(l'.segs[..n], phdrs[k].vaddr)
    decreases k
  {
    var l1, rest := LoadPhdr(l, base, phdrs[0]).value, phdrs[1..];
    SegmentsStay(l, base, phdrs, l');
    SegmentsStay(l1, base, rest, l');
    if k > 0 {
      DynamicIs(l1, base, rest, l', k - 1);
      assert phdrs[..k][0] == phdrs[0] && phdrs[..k][1..] == rest[..k - 1];
    }
  }

  /** Below the top of the address space a file is loaded exactly if it has at most four segments in all, supplies the
      writable ones and leaves room for them. */
  lemma {:induction false} LoadsIff(l: Loading, base: Word, phdrs: seq<Phdr>)
    requires Aligned(phdrs) && End(l.marker, phdrs) < WORD_LIMIT && |l.segs| <= MAX_SEGMENTS
    ensures LoadPhdrs(l, base, phdrs).Some? <==>
      |l.segs| + |Loads(phdrs)| <= 4 && StackFits(|l.mem|, l.marker, phdrs) && AllSupplied(|l.mem|, base, phdrs)
    decreases |phdrs|
  {
    if phdrs != [] {
      FirstEnds(l.marker, phdrs);
      FirstFits(|l.mem|, l.marker, phdrs);
      FirstSupplied(|l.mem|, base, phdrs);
      PhdrLoadsIff(l, base, phdrs[0]);
      match LoadPhdr(l, base, phdrs[0])
      case None =>
      case Some(l1) => LoadsIff(l1, base, phdrs[1..]);
    }
  }

  lemma {:induction false} SteadyGrows(l: Loading, base: Word, phdrs: seq<Phdr>, l': Loading)
    requires LoadPhdrs(l, base, phdrs) == Some(l') && Steady(l, base, phdrs)
    ensures l.marker <= l'.marker && |l'.mem| == |l.mem|
    ensures |l'.segs| == |l.segs| + |Loads(phdrs)| && l'.segs[..|l.segs|] == l.segs
    decreases |phdrs|
  {
    if phdrs != [] {
      var l1 := LoadPhdr(l, base, phdrs[0]).value;
      SteadyGrows(l1, base, phdrs[1..], l');
      assert l1.segs[..|l.segs|] == l.segs;
      assert l'.segs[..|l.segs|] == l'.segs[..|l1.segs|][..|l.segs|];
    }
  }

  lemma {:induction false} PhdrPlaced(l: Loading, base: Word, p: Phdr, l1: Loading)
    requires LoadPhdr(l, base, p) == Some(l1) && p.Load? && Rises(l, p, l1)
    ensures |l1.segs| == |l.segs| + 1 && Places(l1.segs[|l.segs|], p, base)
    ensures Stacked([l1.segs[|l.segs|]], l.marker, l1.marker)
  {
    AccessKeepsWritable(p.flags);
    assert [l1.segs[|l.segs|]][1..] == [];
  }

  lemma {:induction false} SteadyStacked(l: Loading, base: Word, phdrs: seq<Phdr>, l': Loading)
    requires LoadPhdrs(l, base, phdrs) == Some(l') && Steady(l, base, phdrs)
    ensures |l'.segs| >= |l.segs| && Stacked(l'.segs[|l.segs|..], l.marker, l'.marker)
    decreases |phdrs|
  {
    SteadyGrows(l, base, phdrs, l');
    if phdrs == [] {
      assert l'.segs[|l.segs|..] == [];
    } else {
      var l1 := LoadPhdr(l, base, phdrs[0]).value;
      SteadyGrows(l1, base, phdrs[1..], l');
      SteadyStacked(l1, base, phdrs[1..], l');
      if phdrs[0].Load? {
        var n := |l.segs|;
        PhdrPlaced(l, base, phdrs[0], l1);
        assert l'.segs[n] == l'.segs[..n + 1][n] == l1.segs[n];
        assert l'.segs[n..] == [l1.segs[n]] + l'.segs[n + 1..];
        StackedJoin([l1.segs[n]], l'.segs[n + 1..], l.marker, l1.marker, l'.marker);
      }
    }
  }

  /** All headers of a file: the writable segments are stacked between the old and the new end of the
      allocated memory. */
  lemma {:induction false} FileStacked(l: Loading, base: Word, phdrs: seq<Phdr>, l': Loading)
    requires LoadPhdrs(l, base, phdrs) == Some(l') && Aligned(phdrs) && End(l.marker, phdrs) < WORD_LIMIT
    ensures l'.marker == End(l.marker, phdrs)
    ensures |l'.segs| >= |l.segs| && Stacked(l'.segs[|l.segs|..], l.marker, l'.marker)
  {
    FitsIsSteady(l, base, phdrs, l');
    SteadyStacked(l, base, phdrs, l');
  }

  lemma {:induction false} SteadyFaithful(l: Loading, base: Word, phdrs: seq<Phdr>, l': Loading, i: nat)
    requires LoadPhdrs(l, base, phdrs) == Some(l') && Steady(l, base, phdrs) && i < |Loads(phdrs)|
    ensures |l'.segs| == |l.segs| + |Loads(phdrs)| && Places(l'.segs[|l.segs| + i], Loads(phdrs)[i], base)
    decreases |phdrs|
  {
    SteadyGrows(l, base, phdrs, l');
    var l1 := LoadPhdr(l, base, phdrs[0]).value;
    SteadyGrows(l1, base, phdrs[1..], l');
    if !phdrs[0].Load? {
      SteadyFaithful(l1, base, phdrs[1..], l', i);
    } else if i > 0 {
      SteadyFaithful(l1, base, phdrs[1..], l', i - 1);
    } else {
      PhdrPlaced(l, base, phdrs[0], l1);
      assert l'.segs[|l.segs|] == l'.segs[..|l.segs| + 1][|l.segs|] == l1.segs[|l.segs|];
    }
  }

  /** Every loaded segment is a faithful placement of its header. */
  lemma {:induction false} FileFaithful(l: Loading, base: Word, phdrs: seq<Phdr>, l': Loading, i: nat)
    requires LoadPhdrs(l, base, phdrs) == Some(l') && Aligned(phdrs) && End(l.marker, phdrs) < WORD_LIMIT
    requires i < |Loads(phdrs)|
    ensures |l'.segs| == |l.segs| + |Loads(phdrs)| && Places(l'.segs[|l.segs| + i], Loads(phdrs)[i], base)
  {
    FitsIsSteady(l, base, phdrs, l');
    SteadyFaithful(l, base, phdrs, l', i);
  }

  // ---------- The loaded image ----------

  lemma {:induction false} WrittenIs(mem: seq<Byte>, loc: nat, src: nat, filesz: nat, memsz: nat, a: nat)
    requires filesz <= memsz && loc + memsz <= |mem| && src + filesz <= |mem| && a < |mem|
    requires loc + memsz <= src || src + filesz <= loc
    ensures ZeroBytes(CopyBytes(mem, loc, src, filesz), loc + filesz, memsz - filesz)[a] ==
      if !(loc <= a < loc + memsz) then mem[a] else if a < loc + filesz then mem[src + (a - loc)] else 0
  {
    CopyBytesIs(mem, loc, src, filesz, a);
    ZeroBytesIs(CopyBytes(mem, loc, src, filesz), loc + filesz, memsz - filesz, a);
  }

  /** The file's part of every loadable header lies in the memory, outside the addresses lo to hi. */
  predicate FileApart(len: nat, base: Word, phdrs: seq<Phdr>, lo: nat, hi: nat) {
    forall i :: 0 <= i < |phdrs| && phdrs[i].Load? ==> HeaderApart(len, base, phdrs[i], lo, hi)
  }

  predicate HeaderApart(len: nat, base: Word, p: Phdr, lo: nat, hi: nat)
    requires p.Load?
  {
    base + p.offset < WORD_LIMIT && base + p.offset + p.filesz <= len &&
    (base + p.offset + p.filesz <= lo || hi <= base + p.offset)
  }

  /** Byte d of a segment as its header describes it: the file's bytes and then zeros. */
  function ImageByte(mem: seq<Byte>, base: Word, p: Phdr, d: nat): Byte
    requires p.Load? && base + p.offset + p.filesz <= |mem|
  {
    if d < p.filesz then mem[base + p.offset + d] else 0
  }

  /** The bytes of a segment that loading provides: all of a writable one, the file's part of another. */
  function Extent(p: Phdr): nat
    requires p.Load?
  {
    if WritableFlags(p.flags) then p.memsz else p.filesz
  }

  lemma {:induction false} RwWrites(l: Loading, base: Word, p: Phdr, loc: Word, l1: Loading, a: nat)
    requires IsRw(p) && LoadRw(l, base, p, loc) == Some(l1) && a < |l.mem|
    requires loc + p.memsz <= base + p.offset || base + p.offset + p.filesz <= loc
    ensures |l1.mem| == |l.mem| && base + p.offset + p.filesz <= |l.mem|
    ensures l1.mem[a] == if loc <= a < loc + p.memsz then ImageByte(l.mem, base, p, a - loc) else l.mem[a]
  {
    WrittenIs(l.mem, loc, base + p.offset, p.filesz, p.memsz, a);
  }

  /** One header writes its own place alone. */
  lemma {:induction false} PhdrWrites(l: Loading, base: Word, p: Phdr, l1: Loading, a: nat)
    requires LoadPhdr(l, base, p) == Some(l1) && Rises(l, p, l1) && a < |l.mem|
    requires p.Load? ==> HeaderApart(|l.mem|, base, p, l.marker, l1.marker)
    ensures |l1.mem| == |l.mem|
    ensures !(l.marker <= a < l1.marker) ==> l1.mem[a] == l.mem[a]
    ensures IsRw(p) && l1.segs[|l.segs|].loaded <= a < l1.marker ==>
      l1.mem[a] == ImageByte(l.mem, base, p, a - l1.segs[|l.segs|].loaded)
  {
    if IsRw(p) {
      RwWrites(l, base, p, l1.segs[|l.segs|].loaded, l1, a);
    }
  }

  /** Loading a file writes between the old and the new end of the allocated memory alone. */
  lemma {:induction false} FileWrites(l: Loading, base: Word, phdrs: seq<Phdr>, l': Loading, a: nat)
    requires LoadPhdrs(l, base, phdrs) == Some(l') && Steady(l, base, phdrs) && a < |l.mem|
    requires FileApart(|l.mem|, base, phdrs, l.marker, l'.marker)
    ensures |l'.mem| == |l.mem| && l.marker <= l'.marker
    ensures !(l.marker <= a < l'.marker) ==> l'.mem[a] == l.mem[a]
    decreases |phdrs|
  {
    if phdrs != [] {
      var l1 := LoadPhdr(l, base, phdrs[0]).value;
      SteadyGrows(l1, base, phdrs[1..], l');
      ApartSplits(|l.mem|, base, phdrs, l.marker, l1.marker, l'.marker);
      PhdrWrites(l, base, phdrs[0], l1, a);
      FileWrites(l1, base, phdrs[1..], l', a);
    }
  }

  lemma {:induction false} ApartSplits(len: nat, base: Word, phdrs: seq<Phdr>, lo: nat, mid: nat, hi: nat)
    requires phdrs != [] && FileApart(len, base, phdrs, lo, hi) && lo <= mid <= hi
    ensures phdrs[0].Load? ==> HeaderApart(len, base, phdrs[0], lo, mid)
    ensures FileApart(len, base, phdrs[1..], mid, hi)
  {
    forall i | 0 <= i < |phdrs[1..]| && phdrs[1..][i].Load?
      ensures HeaderApart(len, base, phdrs[1..][i], mid, hi)
    {
      assert HeaderApart(len, base, phdrs[i + 1], lo, hi);
    }
  }

  lemma {:induction false} LoadApart(len: nat, base: Word, phdrs: seq<Phdr>, lo: nat, hi: nat, i: nat)
    requires FileApart(len, base, phdrs, lo, hi) && i < |Loads(phdrs)| && lo <= hi
    ensures Loads(phdrs)[i].Load? && HeaderApart(len, base, Loads(phdrs)[i], lo, hi)
    decreases |phdrs|
  {
    ApartSplits(len, base, phdrs, lo, lo, hi);
    assert phdrs[0].Load? ==> HeaderApart(len, base, phdrs[0], lo, hi);
    if !phdrs[0].Load? {
      LoadApart(len, base, phdrs[1..], lo, hi, i);
    } else if i > 0 {
      LoadApart(len, base, phdrs[1..], lo, hi, i - 1);
    }
  }

  /** Byte d of the segment of header p is where it should be. */
  predicate HoldsByte(l: Loading, base: Word, p: Phdr, seg: Segment, mem': seq<Byte>, d: nat) {
    p.Load? && base + p.offset + p.filesz <= |l.mem| && seg.loaded + d < |mem'| &&
    mem'[seg.loaded + d] == ImageByte(l.mem, base, p, d)
  }

  lemma {:induction false} FirstImage(l: Loading, base: Word, phdrs: seq<Phdr>, l1: Loading, l': Loading, d: nat)
    requires phdrs != [] && LoadPhdr(l, base, phdrs[0]) == Some(l1) && LoadPhdrs(l1, base, phdrs[1..]) == Some(l')
    requires Steady(l, base, phdrs) && FileApart(|l.mem|, base, phdrs, l.marker, l'.marker)
    requires phdrs[0].Load? && d < Extent(phdrs[0])
    ensures |l1.segs| == |l.segs| + 1 && HoldsByte(l, base, phdrs[0], l1.segs[|l.segs|], l'.mem, d)
  {
    var p, n := phdrs[0], |l.segs|;
    SteadyGrows(l1, base, phdrs[1..], l');
    ApartSplits(|l.mem|, base, phdrs, l.marker, l1.marker, l'.marker);
    assert HeaderApart(|l.mem|, base, p, l.marker, l'.marker);
    var a := l1.segs[n].loaded + d;
    PhdrWrites(l, base, p, l1, a);
    FileWrites(l1, base, phdrs[1..], l', a);
  }

  /** Loading an earlier header does not change the file's bytes of a later one. */
  lemma {:induction false} RestImage(l: Loading, base: Word, p: Phdr, l1: Loading, later: Phdr, end: nat, d: nat)
    requires LoadPhdr(l, base, p) == Some(l1) && Rises(l, p, l1) && l1.marker <= end
    requires p.Load? ==> HeaderApart(|l.mem|, base, p, l.marker, l1.marker)
    requires later.Load? && HeaderApart(|l.mem|, base, later, l.marker, end)
    ensures |l1.mem| == |l.mem| && base + later.offset + later.filesz <= |l.mem|
    ensures ImageByte(l1.mem, base, later, d) == ImageByte(l.mem, base, later, d)
  {
    if d < later.filesz {
      PhdrWrites(l, base, p, l1, base + later.offset + d);
    }
  }

  /** A byte that is in place after the first header is in place as the memory before it describes it. */
  lemma {:induction false} HeldBefore(l: Loading, base: Word, phdrs: seq<Phdr>, l1: Loading, end: nat, later: Phdr,
      seg: Segment, mem': seq<Byte>, d: nat)
    requires phdrs != [] && LoadPhdr(l, base, phdrs[0]) == Some(l1) && Rises(l, phdrs[0], l1) &&
      l.marker <= l1.marker <= end
    requires FileApart(|l.mem|, base, phdrs, l.marker, end)
    requires later.Load? && HeaderApart(|l.mem|, base, later, l.marker, end) && HoldsByte(l1, base, later, seg, mem', d)
    ensures HoldsByte(l, base, later, seg, mem', d)
  {
    ApartSplits(|l.mem|, base, phdrs, l.marker, l1.marker, end);
    RestImage(l, base, phdrs[0], l1, later, end, d);
  }

  lemma {:induction false} ImageAt(l: Loading, base: Word, phdrs: seq<Phdr>, l': Loading, i: nat, d: nat)
    requires LoadPhdrs(l, base, phdrs) == Some(l') && Steady(l, base, phdrs)
    requires FileApart(|l.mem|, base, phdrs, l.marker, l'.marker)
    requires i < |Loads(phdrs)| && Loads(phdrs)[i].Load? && d < Extent(Loads(phdrs)[i])
    ensures |l'.segs| == |l.segs| + |Loads(phdrs)|
    ensures HoldsByte(l, base, Loads(phdrs)[i], l'.segs[|l.segs| + i], l'.mem, d)
    decreases |phdrs|
  {
    var l1 := LoadPhdr(l, base, phdrs[0]).value;
    SteadyGrows(l, base, phdrs, l');
    SteadyGrows(l1, base, phdrs[1..], l');
    if phdrs[0].Load? && i == 0 {
      assert l'.segs[|l.segs|] == l'.segs[..|l1.segs|][|l.segs|] == l1.segs[|l.segs|];
      FirstImage(l, base, phdrs, l1, l', d);
    } else {
      var j := if phdrs[0].Load? then i - 1 else i;
      assert Loads(phdrs)[i] == Loads(phdrs[1..])[j];
      LoadApart(|l.mem|, base, phdrs, l.marker, l'.marker, i);
      ApartSplits(|l.mem|, base, phdrs, l.marker, l1.marker, l'.marker);
      ImageAt(l1, base, phdrs[1..], l', j, d);
      HeldBefore(l, base, phdrs, l1, l'.marker, Loads(phdrs)[i], l'.segs[|l.segs| + i], l'.mem, d);
    }
  }

  /** Loading preserves the image: when the headers are done, byte d of segment i is found at distance d from
      its loaded address, as the file and its zero padding give it; no later segment has overwritten it. */
  lemma {:induction false} ImageLoaded(l: Loading, base: Word, phdrs: seq<Phdr>, l': Loading, i: nat, d: nat)
    requires LoadPhdrs(l, base, phdrs) == Some(l') && Aligned(phdrs) && End(l.marker, phdrs) < WORD_LIMIT
    requires FileApart(|l.mem|, base, phdrs, l.marker, End(l.marker, phdrs))
    requires i < |Loads(phdrs)| && Loads(phdrs)[i].Load? && d < Extent(Loads(phdrs)[i])
    ensures |l'.segs| == |l.segs| + |Loads(phdrs)|
    ensures HoldsByte(l, base, Loads(phdrs)[i], l'.segs[|l.segs| + i], l'.mem, d)
  {
    FitsIsSteady(l, base, phdrs, l');
    ImageAt(l, base, phdrs, l', i, d);
  }

  // ---------- Both files ----------

  /** Root is loaded where the kernel's load stopped: over both, the writable segments are stacked from the
      start of the memory on. */
  lemma {:induction false} BothStacked(mem: seq<Byte>, sram: Word, kernBase: Word, kernPhdrs: seq<Phdr>, kern: Loading,
      mem1: seq<Byte>, rootBase: Word, rootPhdrs: seq<Phdr>, root: Loading)
    requires Aligned(kernPhdrs) && Aligned(rootPhdrs) && End(End(sram, kernPhdrs), rootPhdrs) < WORD_LIMIT
    requires LoadPhdrs(Loading(mem, [], 0, sram), kernBase, kernPhdrs) == Some(kern)
    requires LoadPhdrs(Loading(mem1, [], 0, kern.marker), rootBase, rootPhdrs) == Some(root)
    ensures Stacked(kern.segs + root.segs, sram, root.marker)
    ensures root.marker == End(End(sram, kernPhdrs), rootPhdrs)
  {
    var l0, r0 := Loading(mem, [], 0, sram), Loading(mem1, [], 0, kern.marker);
    FileStacked(l0, kernBase, kernPhdrs, kern);
    FitsIsSteady(l0, kernBase, kernPhdrs, kern);
    FileStacked(r0, rootBase, rootPhdrs, root);
    FitsIsSteady(r0, rootBase, rootPhdrs, root);
    assert kern.segs[0..] == kern.segs && root.segs[0..] == root.segs;
    StackedJoin(kern.segs, root.segs, sram, kern.marker, root.marker);
  }

  /** Any two different writable segments of the two files are disjoint, the later one above. */
  lemma {:induction false} BothDisjoint(mem: seq<Byte>, sram: Word, kernBase: Word, kernPhdrs: seq<Phdr>,
      kern: Loading, mem1: seq<Byte>, rootBase: Word, rootPhdrs: seq<Phdr>, root: Loading, i: nat, j: nat)
    requires Aligned(kernPhdrs) && Aligned(rootPhdrs) && End(End(sram, kernPhdrs), rootPhdrs) < WORD_LIMIT
    requires LoadPhdrs(Loading(mem, [], 0, sram), kernBase, kernPhdrs) == Some(kern)
    requires LoadPhdrs(Loading(mem1, [], 0, kern.marker), rootBase, rootPhdrs) == Some(root)
    requires var all := kern.segs + root.segs; i < j < |all| && Writable(all[i]) && Writable(all[j])
    ensures var all := kern.segs + root.segs;
      sram <= all[i].loaded && all[i].loaded + all[i].size <= all[j].loaded && all[j].loaded + all[j].size < WORD_LIMIT
  {
    var all := kern.segs + root.segs;
    BothStacked(mem, sram, kernBase, kernPhdrs, kern, mem1, rootBase, rootPhdrs, root);
    StackedIsIncreasing(all, sram, root.marker, i, j);
    StackedBounds(all, sram, root.marker, i);
    StackedBounds(all, sram, root.marker, j);
  }

  /** Loading root's segments leaves every byte below them as the kernel has it. */
  lemma {:induction false} RootKeepsKernel(mem: seq<Byte>, marker: Word, base: Word, phdrs: seq<Phdr>, root: Loading,
      a: nat)
    requires Aligned(phdrs) && End(marker, phdrs) < WORD_LIMIT
    requires LoadPhdrs(Loading(mem, [], 0, marker), base, phdrs) == Some(root)
    requires FileApart(|mem|, base, phdrs, marker, End(marker, phdrs))
    requires a < |mem| && a < marker
    ensures |root.mem| == |mem| && root.mem[a] == mem[a]
  {
    FitsIsSteady(Loading(mem, [], 0, marker), base, phdrs, root);
    FileWrites(Loading(mem, [], 0, marker), base, phdrs, root, a);
  }
}
