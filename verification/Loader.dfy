/** The loader in place: the library of lib/elf/elf.c working on its state and on the memory, with the
    boot loader's operations of boot/boot.c. */
module Loader {
  import opened Words
  import opened ElfImage
  import opened ElfSymbols
  import opened Alignment
  import opened Boot
  import opened Memory

  /** relocate_elf_file. */
  function RelocateFile(mem: seq<Byte>, segs: seq<Segment>, dyn: Word): Relocated {
    if dyn == 0 then Done(mem)
    else
      match LastTag(mem, segs, dyn, DT_REL, 0)
      case None => Fault
      case Some(table) => if table == 0 then Fault else Relocate(mem, segs, table)
  }

  datatype Image = Image(mem: seq<Byte>, segs: seq<Segment>, dyn: Word, marker: Word, entry: Word)

  /** load_elf_file past the header; the result of the relocation is dropped, so an unknown relocation leaves
      the image half relocated and is not reported. */
  function LoadElf(mem: seq<Byte>, base: Word, marker: Word, phdrs: seq<Phdr>, entry: Word): Option<Image> {
    match LoadPhdrs(Loading(mem, [], 0, marker), base, phdrs)
    case None => None
    case Some(l) =>
      match RelocateFile(l.mem, l.segs, l.dyn)
      case Fault => None
      case Done(m) => Some(Image(m, l.segs, l.dyn, l.marker, Translate(l.segs, entry)))
      case Unknown(m) => Some(Image(m, l.segs, l.dyn, l.marker, Translate(l.segs, entry)))
  }

  /** The file's headers are loaded as l, and its relocation table lists these targets up to an entry of type last. */
  ghost predicate HasTable(mem: seq<Byte>, base: Word, marker: Word, phdrs: seq<Phdr>, l: Loading, targets: seq<nat>,
      last: Word) {
    && LoadPhdrs(Loading(mem, [], 0, marker), base, phdrs) == Some(l) && l.dyn != 0
    && var table := LastTag(l.mem, l.segs, l.dyn, DT_REL, 0);
       table.Some? && table.value != 0 && Lists(l.mem, l.segs, table.value, targets, last) &&
         Apart(l.mem, table.value, targets)
  }

  /** Loading succeeds whatever the first entry is that is not relative: the words listed before it are translated and
      every other byte, among them the words listed behind it, stays as the headers left it. Only relocate_elf_file,
      whose result is dropped, tells the end of the table from an unknown type. */
  lemma {:induction false} UnknownIsNotReported(mem: seq<Byte>, base: Word, marker: Word, phdrs: seq<Phdr>,
      entry: Word, l: Loading, targets: seq<nat>, last: Word)
    requires HasTable(mem, base, marker, phdrs, l, targets, last) && last != R_ARM_RELATIVE
    ensures var r := LoadElf(mem, base, marker, phdrs, entry);
      r.Some? && r.value == Image(r.value.mem, l.segs, l.dyn, l.marker, Translate(l.segs, entry)) &&
      TranslatesTargets(l.mem, l.segs, targets, r.value.mem)
    ensures RelocateFile(l.mem, l.segs, l.dyn).Unknown? <==> last != R_ARM_NONE
  {
    EntriesTranslate(l.mem, l.segs, LastTag(l.mem, l.segs, l.dyn, DT_REL, 0).value, targets, last);
  }

  /** Loading root, its relocation included, leaves every byte below its place as the kernel has it, when root's
      relocations are of words in that place. */
  lemma {:induction false} RootLoadKeepsKernel(mem: seq<Byte>, base: Word, marker: Word, phdrs: seq<Phdr>, entry: Word,
      l: Loading, targets: seq<nat>, last: Word, a: nat)
    requires HasTable(mem, base, marker, phdrs, l, targets, last) && last != R_ARM_RELATIVE
    requires forall i :: 0 <= i < |targets| ==> marker <= targets[i]
    requires Aligned(phdrs) && End(marker, phdrs) < WORD_LIMIT &&
      FileApart(|mem|, base, phdrs, marker, End(marker, phdrs))
    requires a < |mem| && a < marker
    ensures var r := LoadElf(mem, base, marker, phdrs, entry);
      r.Some? && |r.value.mem| == |mem| && r.value.mem[a] == mem[a]
  {
    UnknownIsNotReported(mem, base, marker, phdrs, entry, l, targets, last);
    RootKeepsKernel(mem, marker, base, phdrs, l, a);
    assert !InTargets(targets, a);
  }

  // ---------- Memory ----------

  function Peek(mem: array<Byte>, p: nat): (w: Word)
    requires p + 4 <= mem.Length
    reads mem
    ensures w == WordAt(mem[..], p)
  {
    WordAt(mem[..], p)
  }

  method Poke(mem: array<Byte>, p: nat, w: Word)
    requires p + 4 <= mem.Length
    modifies mem
    ensures mem[..] == WithWord(old(mem[..]), p, w)
  {
    mem[p], mem[p + 1], mem[p + 2], mem[p + 3] := w % 0x100, w / 0x100 % 0x100, w / 0x1_0000 % 0x100, w / 0x100_0000;
  }

  // ---------- Strings and hashes ----------

  method StrCmpInMemory(mem: array<Byte>, p: nat, name: seq<Byte>) returns (r: Option<int>)
    requires IsName(name)
    ensures r == StrCmp(mem[..], p, name)
  {
    var i := 0;
    while p + i < mem.Length
      invariant i <= |name|
      invariant StrCmp(mem[..], p, name) == StrCmp(mem[..], p + i, name[i..])
    {
      var right: Byte := if i == |name| then 0 else name[i];
      if mem[p + i] == 0 || mem[p + i] != right {
        var left: int := mem[p + i];
        return Some(left - right);
      }
      i := i + 1;
    }
    return None;
  }

  method HashOf(name: seq<Byte>) returns (h: Word)
    ensures h == HashFrom(0, name)
  {
    h := 0;
    var i := 0;
    while i < |name|
      invariant i <= |name| && h < TOP
      invariant HashFrom(0, name) == HashFrom(h, name[i..])
    {
      assert name[i..][0] == name[i] && name[i..][1..] == name[i + 1..];
      h := HashStep(h, name[i]);
      i := i + 1;
    }
  }

  class ElfFileState {
    var elfFileBase: Word
    var sramMarker: Word

    constructor (base: Word, marker: Word)
      ensures elfFileBase == base && sramMarker == marker
    {
      elfFileBase, sramMarker := base, marker;
    }

    method AllocRw(size: Word, align: Word, alignOffset: Word) returns (loc: Word)
      requires align > 0
      modifies `sramMarker
      ensures loc == (AlignPtr(old(sramMarker), align) + alignOffset) % WORD_LIMIT
      ensures sramMarker == (loc + size) % WORD_LIMIT
    {
      sramMarker := (AlignPtr(sramMarker, align) + alignOffset) % WORD_LIMIT;
      loc := sramMarker;
      sramMarker := (sramMarker + size) % WORD_LIMIT;
    }
  }

  datatype Code = OK | UNKNOWN_RELOC | CRASH

  class LibelfState {
    const segments: array<Segment>
    var numSegments: nat
    var phdrs: Word
    var entryPoint: Word

    predicate Valid()
      reads this
    {
      segments.Length == MAX_SEGMENTS && numSegments <= MAX_SEGMENTS
    }

    function Segs(): seq<Segment>
      reads this, segments
      requires Valid()
    {
      segments[..numSegments]
    }

    constructor ()
      ensures Valid() && fresh(segments) && Segs() == [] && phdrs == 0
    {
      segments := new Segment[MAX_SEGMENTS](_ => Segment(0, 0, 0, 0));
      numSegments, phdrs, entryPoint := 0, 0, 0;
    }

    method LinkedToLoadedAddr(addr: Word) returns (r: Word)
      requires Valid()
      ensures r == Translate(Segs(), addr)
    {
      var i := 0;
      while i < numSegments
        invariant i <= numSegments
        invariant Translate(Segs(), addr) == Translate(Segs()[i..], addr)
      {
        var segment := segments[i];
        assert Segs()[i..][0] == segment && Segs()[i..][1..] == Segs()[i + 1..];
        if segment.linked <= addr && (segment.linked + segment.size) % WORD_LIMIT > addr {
          return (segment.loaded + (addr - segment.linked)) % WORD_LIMIT;
        }
        i := i + 1;
      }
      return 0;
    }

    /** The scan for the relocation table. */
    method FindRelocations(mem: array<Byte>) returns (r: Option<Word>)
      requires Valid()
      ensures r == LastTag(mem[..], Segs(), phdrs, DT_REL, 0)
    {
      var tag: nat, found: Word := phdrs, 0;
      while tag + 8 <= mem.Length && Peek(mem, tag) != DT_NULL
        invariant LastTag(mem[..], Segs(), phdrs, DT_REL, 0) == LastTag(mem[..], Segs(), tag, DT_REL, found)
        decreases mem.Length - tag
      {
        if Peek(mem, tag) == DT_REL {
          found := LinkedToLoadedAddr(Peek(mem, tag + 4));
        }
        tag := tag + 8;
      }
      return if tag + 8 <= mem.Length then Some(found) else None;
    }

    method RelocateElfFile(mem: array<Byte>) returns (code: Code)
      requires Valid()
      modifies mem
      ensures var r := RelocateFile(old(mem[..]), Segs(), phdrs);
        match code case OK => r == Done(mem[..]) case UNKNOWN_RELOC => r == Unknown(mem[..]) case CRASH => r == Fault
    {
      if phdrs == 0 {
        return OK;
      }
      var table := FindRelocations(mem);
      if table == None || table.value == 0 {
        return CRASH;
      }
      code := RelocateTable(mem, table.value);
    }

    /** The relocation loop over the table at an address. */
    method RelocateTable(mem: array<Byte>, table: nat) returns (code: Code)
      requires Valid()
      modifies mem
      ensures var r := Relocate(old(mem[..]), Segs(), table);
        match code case OK => r == Done(mem[..]) case UNKNOWN_RELOC => r == Unknown(mem[..]) case CRASH => r == Fault
    {
      ghost var start, segs := mem[..], Segs();
      var reloc := table;
      while reloc + 8 <= mem.Length && Peek(mem, reloc + 4) != R_ARM_NONE
        invariant Relocate(start, segs, table) == Relocate(mem[..], segs, reloc)
        decreases mem.Length - reloc
      {
        if Peek(mem, reloc + 4) != R_ARM_RELATIVE {
          return UNKNOWN_RELOC;
        }
        var pos := LinkedToLoadedAddr(Peek(mem, reloc));
        if pos == 0 || pos + 4 > mem.Length {
          return CRASH;
        }
        var value := LinkedToLoadedAddr(Peek(mem, pos));
        Poke(mem, pos, value);
        reloc := reloc + 8;
      }
      return if reloc + 8 <= mem.Length then OK else CRASH;
    }

    /** What is loaded so far. */
    function Progress(file: ElfFileState, mem: array<Byte>): Loading
      reads this, segments, file, mem
      requires Valid()
    {
      Loading(mem[..], Segs(), phdrs, file.sramMarker)
    }

    /** A writable segment: memory is taken, the file's bytes are read there and the rest is zeroed. */
    method FillSegment(file: ElfFileState, mem: array<Byte>, p: Phdr) returns (loc: Option<Word>)
      requires p.Load? && p.align > 0
      modifies file`sramMarker, mem
      ensures var at, m := RwPlace(old(file.sramMarker), p.vaddr, p.align), old(mem[..]);
        var fits := at + p.filesz <= |m| && file.elfFileBase + p.offset + p.filesz <= |m| && p.filesz <= p.memsz &&
          at + p.memsz <= |m|;
        && loc == (if fits then Some(at) else None)
        && (fits ==> file.sramMarker == (at + p.memsz) % WORD_LIMIT)
        && (fits ==> mem[..] == ZeroBytes(CopyBytes(m, at, file.elfFileBase + p.offset, p.filesz), at + p.filesz,
          p.memsz - p.filesz))
    {
      var at := file.AllocRw(p.memsz, p.align, p.vaddr % p.align);
      if at + p.filesz > mem.Length || file.elfFileBase + p.offset + p.filesz > mem.Length || p.memsz < p.filesz ||
        at + p.memsz > mem.Length {
        return None;
      }
      Memcpy(mem, at, file.elfFileBase + p.offset, p.filesz);
      MemsetZero(mem, at + p.filesz, p.memsz - p.filesz);
      return Some(at);
    }

    method AddSegment(segment: Segment)
      requires Valid() && numSegments < MAX_SEGMENTS
      modifies `numSegments, segments
      ensures Valid() && Segs() == old(Segs()) + [segment]
    {
      segments[numSegments] := segment;
      numSegments := numSegments + 1;
    }

    /** The PT_LOAD branch. */
    method LoadSegment(file: ElfFileState, mem: array<Byte>, p: Phdr) returns (ok: bool)
      requires Valid() && p.Load?
      modifies this, segments, file, mem
      ensures Valid() && file.elfFileBase == old(file.elfFileBase)
      ensures var r := LoadPhdr(old(Progress(file, mem)), file.elfFileBase, p);
        if ok then r == Some(Progress(file, mem)) else r == None
    {
      if numSegments >= MAX_SEGMENTS {
        return false;
      }
      var loc := (file.elfFileBase + p.offset) % WORD_LIMIT;
      if WritableFlags(p.flags) {
        if p.align == 0 {
          return false;
        }
        var place := FillSegment(file, mem, p);
        if place == None {
          return false;
        }
        loc := place.value;
      }
      AddSegment(Segment(p.vaddr, p.memsz, loc, Access(p.flags)));
      return true;
    }

    method LoadElfFile(file: ElfFileState, mem: array<Byte>, headers: seq<Phdr>, entry: Word) returns (ok: bool)
      requires Valid() && Segs() == [] && phdrs == 0
      modifies this, segments, file, mem
      ensures Valid() && file.elfFileBase == old(file.elfFileBase)
      ensures var r := LoadElf(old(mem[..]), old(file.elfFileBase), old(file.sramMarker), headers, entry);
        if ok then r == Some(Image(mem[..], Segs(), phdrs, file.sramMarker, entryPoint)) else r == None
    {
      ghost var start, base := Progress(file, mem), file.elfFileBase;
      var i := 0;
      while i < |headers|
        invariant i <= |headers| && Valid() && file.elfFileBase == base
        invariant LoadPhdrs(start, base, headers) == LoadPhdrs(Progress(file, mem), base, headers[i..])
      {
        assert headers[i..][0] == headers[i] && headers[i..][1..] == headers[i + 1..];
        match headers[i] {
          case Load(_, _, _, _, _, _) =>
            var loaded := LoadSegment(file, mem, headers[i]);
            if !loaded {
              return false;
            }
          case Dynamic(vaddr) =>
            phdrs := LinkedToLoadedAddr(vaddr);
          case Other =>
        }
        i := i + 1;
      }
      assert headers[i..] == [];
      var code := RelocateElfFile(mem);
      if code == CRASH {
        return false;
      }
      entryPoint := LinkedToLoadedAddr(entry);
      return true;
    }

    /** The scan for the three tables of a symbol lookup. */
    method FindSymbolTables(mem: array<Byte>) returns (hash: Option<Word>, syms: Option<Word>, strtab: Option<Word>)
      requires Valid()
      ensures hash == LastTag(mem[..], Segs(), phdrs, DT_HASH, 0)
      ensures syms == LastTag(mem[..], Segs(), phdrs, DT_SYMTAB, 0)
      ensures strtab == LastTag(mem[..], Segs(), phdrs, DT_STRTAB, 0)
    {
      var dyn: nat, h: Word, y: Word, s: Word := phdrs, 0, 0, 0;
      while dyn + 8 <= mem.Length && Peek(mem, dyn) != DT_NULL
        invariant LastTag(mem[..], Segs(), phdrs, DT_HASH, 0) == LastTag(mem[..], Segs(), dyn, DT_HASH, h)
        invariant LastTag(mem[..], Segs(), phdrs, DT_SYMTAB, 0) == LastTag(mem[..], Segs(), dyn, DT_SYMTAB, y)
        invariant LastTag(mem[..], Segs(), phdrs, DT_STRTAB, 0) == LastTag(mem[..], Segs(), dyn, DT_STRTAB, s)
        decreases mem.Length - dyn
      {
        var value := LinkedToLoadedAddr(Peek(mem, dyn + 4));
        var tag := Peek(mem, dyn);
        if tag == DT_HASH {
          h := value;
        } else if tag == DT_SYMTAB {
          y := value;
        } else if tag == DT_STRTAB {
          s := value;
        }
        dyn := dyn + 8;
      }
      if dyn + 8 > mem.Length {
        return None, None, None;
      }
      return Some(h), Some(y), Some(s);
    }

    method LocateElfSymbol(mem: array<Byte>, symbol: seq<Byte>, ghost chain: seq<Word>) returns (r: Located)
      requires Valid() && IsName(symbol)
      requires match FindTables(mem[..], Segs(), phdrs)
        case At(t) => BucketEnds(mem[..], t, symbol, chain)
        case _ => true
      ensures r == Locate(mem[..], Segs(), phdrs, symbol, chain)
    {
      if phdrs == 0 {
        return NoDyn;
      }
      var hash, syms, strtab := FindSymbolTables(mem);
      if hash == None || syms == None || strtab == None {
        return BadImage;
      }
      if strtab.value == 0 || syms.value == 0 || hash.value == 0 {
        return NoDyn;
      }
      var t := Tables(hash.value, syms.value, strtab.value);
      var first := FindBucket(mem, t, symbol);
      if first == None {
        return BadImage;
      }
      var found := WalkChain(mem, t, ChainBase(mem[..], t), first.value, symbol, chain);
      match found {
        case BadTable => return BadImage;
        case Absent => return NoSym;
        case FoundAt(i) =>
          if SymbolPos(t, i) + 16 > mem.Length {
            return BadImage;
          }
          var value := LinkedToLoadedAddr(Peek(mem, SymbolPos(t, i) + 4));
          return Value(value);
      }
    }
  }

  /** The bucket of the symbol's hash. */
  method FindBucket(mem: array<Byte>, t: Tables, symbol: seq<Byte>) returns (first: Option<Word>)
    ensures first == FirstIndex(mem[..], t, symbol)
  {
    if t.hash + 8 > mem.Length || Peek(mem, t.hash) == 0 {
      return None;
    }
    var h := HashOf(symbol);
    var bucket := BucketPos(t, h, Peek(mem, t.hash));
    if bucket + 4 > mem.Length {
      return None;
    }
    return Some(Peek(mem, bucket));
  }

  method WalkChain(mem: array<Byte>, t: Tables, chains: nat, first: Word, symbol: seq<Byte>, ghost chain: seq<Word>)
      returns (r: Found)
    requires IsName(symbol) && IsChain(mem[..], chains, first, chain)
    ensures r == Walk(mem[..], t, chain, symbol)
  {
    var symidx := first;
    ghost var left := chain;
    while symidx != 0
      invariant IsChain(mem[..], chains, symidx, left)
      invariant Walk(mem[..], t, chain, symbol) == Walk(mem[..], t, left, symbol)
      decreases |left|
    {
      if SymbolPos(t, symidx) + 16 > mem.Length {
        return BadTable;
      }
      var c := StrCmpInMemory(mem, t.strtab + Peek(mem, SymbolPos(t, symidx)), symbol);
      if c == None {
        return BadTable;
      }
      if c.value == 0 {
        return FoundAt(symidx);
      }
      symidx := Peek(mem, ChainPos(chains, symidx));
      left := left[1..];
    }
    return Absent;
  }

  /** The two loads of main with their one marker. The symbol lookups between them do not write, and are not
      made here. */
  method LoadKernelAndRoot(mem: array<Byte>, sram: Word, kernBase: Word, kernPhdrs: seq<Phdr>, kernEntry: Word,
      rootBase: Word, rootPhdrs: seq<Phdr>, rootEntry: Word) returns (ok: bool, kern: LibelfState, root: LibelfState)
    modifies mem
    ensures kern.Valid() && root.Valid() && fresh(kern) && fresh(root)
    ensures var k := LoadElf(old(mem[..]), kernBase, sram, kernPhdrs, kernEntry);
      var r := if k.Some? then LoadElf(k.value.mem, rootBase, k.value.marker, rootPhdrs, rootEntry) else None;
      && (ok <==> r.Some?)
      && (ok ==> kern.Segs() == k.value.segs && kern.entryPoint == k.value.entry)
      && (ok ==> root.Segs() == r.value.segs && root.entryPoint == r.value.entry && mem[..] == r.value.mem)
    ensures ok && Aligned(kernPhdrs) && Aligned(rootPhdrs) && End(End(sram, kernPhdrs), rootPhdrs) < WORD_LIMIT
      ==> Stacked(kern.Segs() + root.Segs(), sram, End(End(sram, kernPhdrs), rootPhdrs))
  {
    var file := new ElfFileState(kernBase, sram);
    kern := new LibelfState();
    root := new LibelfState();
    ghost var start := mem[..];
    ok := kern.LoadElfFile(file, mem, kernPhdrs, kernEntry);
    if ok {
      ghost var mid, marker, kernSegs := mem[..], file.sramMarker, kern.Segs();
      file.elfFileBase := rootBase;
      ok := root.LoadElfFile(file, mem, rootPhdrs, rootEntry);
      assert kern.Segs() == kernSegs;
      if ok && Aligned(kernPhdrs) && Aligned(rootPhdrs) && End(End(sram, kernPhdrs), rootPhdrs) < WORD_LIMIT {
        ghost var k := LoadPhdrs(Loading(start, [], 0, sram), kernBase, kernPhdrs).value;
        ghost var r := LoadPhdrs(Loading(mid, [], 0, marker), rootBase, rootPhdrs).value;
        BothStacked(start, sram, kernBase, kernPhdrs, k, mid, rootBase, rootPhdrs, r);
      }
    }
  }
}
