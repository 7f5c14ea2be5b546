/** Symbol lookup of lib/elf/elf.c in the hash table of System V gABI chapter 5, "Hash Table". */
module ElfSymbols {
  import opened Bits
  import opened Words
  import opened ElfImage

  const DT_NULL: Word := 0
  const DT_HASH: Word := 4
  const DT_STRTAB: Word := 5
  const DT_SYMTAB: Word := 6
  const DT_REL: Word := 17

  /** The last dynamic tag of one kind, translated, or found when there is none; None when the tags run
      out of the memory. */
  function LastTag(mem: seq<Byte>, segs: seq<Segment>, pos: nat, tag: Word, found: Word): Option<Word>
    decreases |mem| - pos
  {
    if pos + 8 > |mem| then None
    else if WordAt(mem, pos) == DT_NULL then Some(found)
    else
      LastTag(mem, segs, pos + 8, tag, if WordAt(mem, pos) == tag then Translate(segs, WordAt(mem, pos + 4)) else found)
  }

  function TagPos(pos: nat, i: nat): nat {
    pos + 8 * i
  }

  /** n entries of the dynamic section, none of them the end, and then the end. */
  predicate TagsEnd(mem: seq<Byte>, pos: nat, n: nat) {
    TagPos(pos, n) + 8 <= |mem| && WordAt(mem, TagPos(pos, n)) == DT_NULL &&
    forall i :: 0 <= i < n ==> WordAt(mem, TagPos(pos, i)) != DT_NULL
  }

  predicate NoTag(mem: seq<Byte>, pos: nat, from: nat, n: nat, tag: Word)
    requires TagPos(pos, n) <= |mem|
  {
    forall i :: from <= i < n ==> WordAt(mem, TagPos(pos, i)) != tag
  }

  /** The entries after the first. */
  lemma {:induction false} RestOfTags(mem: seq<Byte>, pos: nat, n: nat, from: nat, tag: Word)
    requires TagsEnd(mem, pos, n) && n > 0 && NoTag(mem, pos, from, n, tag)
    ensures WordAt(mem, pos) != DT_NULL
    ensures TagsEnd(mem, pos + 8, n - 1) && NoTag(mem, pos + 8, if from == 0 then 0 else from - 1, n - 1, tag)
  {
    assert WordAt(mem, TagPos(pos, 0)) != DT_NULL;
    forall i {:trigger TagPos(pos + 8, i)} | 0 <= i < n - 1
      ensures WordAt(mem, TagPos(pos + 8, i)) == WordAt(mem, TagPos(pos, i + 1))
    {
    }
  }

  lemma {:induction false} TagAbsent(mem: seq<Byte>, segs: seq<Segment>, pos: nat, n: nat, tag: Word, found: Word)
    requires TagsEnd(mem, pos, n) && NoTag(mem, pos, 0, n, tag)
    ensures LastTag(mem, segs, pos, tag, found) == Some(found)
    decreases n
  {
    if n > 0 {
      RestOfTags(mem, pos, n, 0, tag);
      assert WordAt(mem, TagPos(pos, 0)) != tag;
      TagAbsent(mem, segs, pos + 8, n - 1, tag, found);
    }
  }

  /** The value of the last entry of the kind, entry k, as the address it was loaded to. */
  lemma {:induction false} LastTagIs(mem: seq<Byte>, segs: seq<Segment>, pos: nat, n: nat, tag: Word, found: Word,
      k: nat)
    requires TagsEnd(mem, pos, n) && k < n && WordAt(mem, TagPos(pos, k)) == tag && NoTag(mem, pos, k + 1, n, tag)
    ensures LastTag(mem, segs, pos, tag, found) == Some(Translate(segs, WordAt(mem, TagPos(pos, k) + 4)))
    decreases n
  {
    RestOfTags(mem, pos, n, k + 1, tag);
    if k == 0 {
      TagAbsent(mem, segs, pos + 8, n - 1, tag, Translate(segs, WordAt(mem, pos + 4)));
    } else {
      assert TagPos(pos + 8, k - 1) == TagPos(pos, k);
      var next := if WordAt(mem, pos) == tag then Translate(segs, WordAt(mem, pos + 4)) else found;
      LastTagIs(mem, segs, pos + 8, n - 1, tag, next, k - 1);
    }
  }

  // ---------- Hashing ----------

  const TOP: nat := 0x1000_0000

  /** One character: the top four bits are folded into bits 4 to 7 and cleared. */
  function HashStep(h: Word, c: Byte): (r: Word)
    ensures r < TOP
  {
    var h1 := (h * 16 + c) % WORD_LIMIT;
    var g := h1 / TOP * TOP;
    HashStepStays(h1);
    And(if g != 0 then Xor(h1, g / 0x100_0000) else h1, WORD_LIMIT - 1 - g)
  }

  lemma {:induction false} TopPower()
    ensures Pow2(8) == 256 && Pow2(28) == TOP
  {
    assert Pow2(4) == 16;
    Pow2Sum(4, 4);
    Pow2Sum(8, 8);
    Pow2Sum(16, 8);
    Pow2Sum(24, 4);
  }

  lemma {:induction false} HashStepStays(h1: Word)
    ensures var g := h1 / TOP * TOP;
      And(if g != 0 then Xor(h1, g / 0x100_0000) else h1, WORD_LIMIT - 1 - g) < TOP
  {
    var top := h1 / TOP;
    var h2 := if top != 0 then Xor(h1, top * 16) else h1;
    TopPower();
    FoldKeepsTop(h1, 8);
    ClearTop(h2, top, 28);
  }

  /** Folding the top four bits into bits 4 to 7 leaves the top four bits alone. */
  lemma {:induction false} FoldKeepsTop(h1: Word, k: nat)
    requires Pow2(k) == 256
    ensures Xor(h1, h1 / TOP * 16) / TOP == h1 / TOP
  {
    var q, low, c := h1 / 256, h1 % 256, h1 / TOP * 16;
    XorLow(q, low, c, k);
    TopOf(q, low);
    TopOf(q, Xor(low, c));
  }

  lemma {:induction false} TopOf(q: nat, low: nat)
    requires low < 256
    ensures (q * 256 + low) / TOP == q / 0x10_0000
  {
  }

  lemma {:induction false} ClearTop(h2: nat, top: nat, n: nat)
    requires Pow2(n) == TOP && h2 / TOP == top < 16
    ensures And(h2, WORD_LIMIT - 1 - top * TOP) == h2 % TOP
  {
    AndSplit(top, h2 % TOP, 15 - top, TOP - 1, n);
    AndOnes(h2 % TOP, n);
    assert Pow2(4) == 16;
    AndComplement(top, 4);
  }

  /** elf_hash from the hash h of the characters before name; it stays below 2^28 after every one. */
  function HashFrom(h: Word, name: seq<Byte>): (r: Word)
    requires h < TOP
    ensures r < TOP
    decreases |name|
  {
    if name == [] then h else HashFrom(HashStep(h, name[0]), name[1..])
  }

  function ElfHash(name: seq<Byte>): nat {
    HashFrom(0, name)
  }

  // ---------- Names ----------

  predicate IsName(name: seq<Byte>) {
    forall i :: 0 <= i < |name| ==> name[i] != 0
  }

  /** The string of zero-terminated bytes at p is name. */
  predicate NameAt(mem: seq<Byte>, p: nat, name: seq<Byte>) {
    p + |name| < |mem| && mem[p..p + |name|] == name && mem[p + |name|] == 0
  }

  /** strcmp of the string at p with a name; None when it runs out of the memory. */
  function StrCmp(mem: seq<Byte>, p: nat, name: seq<Byte>): Option<int>
    decreases |name|
  {
    if p >= |mem| then None
    else if name == [] then Some(mem[p])
    else if mem[p] != 0 && mem[p] == name[0] then StrCmp(mem, p + 1, name[1..])
    else var c: int := mem[p]; Some(c - name[0])
  }

  /** Against a terminated string the comparison ends, with zero exactly for the same name. */
  lemma {:induction false} StrCmpDecides(mem: seq<Byte>, p: nat, held: seq<Byte>, name: seq<Byte>)
    requires NameAt(mem, p, held) && IsName(held) && IsName(name)
    ensures StrCmp(mem, p, name).Some?
    ensures StrCmp(mem, p, name).value == 0 <==> held == name
    decreases |name|
  {
    if held != [] {
      assert mem[p] == mem[p..p + |held|][0] == held[0];
      if name != [] && held[0] == name[0] {
        assert mem[p + 1..p + |held|] == held[1..];
        StrCmpDecides(mem, p + 1, held[1..], name[1..]);
        assert held == [held[0]] + held[1..] && name == [name[0]] + name[1..];
      }
    }
  }

  lemma {:induction false} OneName(mem: seq<Byte>, p: nat, name1: seq<Byte>, name2: seq<Byte>)
    requires NameAt(mem, p, name1) && NameAt(mem, p, name2) && IsName(name1) && IsName(name2)
    ensures name1 == name2
  {
    StrCmpDecides(mem, p, name1, name2);
    StrCmpDecides(mem, p, name2, name2);
  }

  // ---------- The tables ----------

  /** Where the tables lie, as translated from the dynamic tags. */
  datatype Tables = Tables(hash: nat, syms: nat, strtab: nat)

  function BucketCount(mem: seq<Byte>, t: Tables): Word
    requires t.hash + 8 <= |mem|
  {
    WordAt(mem, t.hash)
  }

  /** The chain words follow the two counts and the buckets. */
  function ChainBase(mem: seq<Byte>, t: Tables): nat
    requires t.hash + 8 <= |mem|
  {
    t.hash + 8 + 4 * BucketCount(mem, t)
  }

  function BucketPos(t: Tables, hash: nat, count: nat): nat
    requires count > 0
  {
    t.hash + 8 + 4 * (hash % count)
  }

  /** The bucket of a name, or None when there is no bucket or it is out of the memory. */
  function FirstIndex(mem: seq<Byte>, t: Tables, name: seq<Byte>): Option<Word> {
    if t.hash + 8 > |mem| || BucketCount(mem, t) == 0 then None
    else
      var p := BucketPos(t, ElfHash(name), BucketCount(mem, t));
      if p + 4 > |mem| then None else Some(WordAt(mem, p))
  }

  function ChainPos(base: nat, i: nat): nat {
    base + 4 * i
  }

  /** The links from idx run through the indices of chain and end. */
  predicate IsChain(mem: seq<Byte>, base: nat, idx: Word, chain: seq<Word>)
    decreases |chain|
  {
    if chain == [] then idx == 0
    else
      idx == chain[0] && idx != 0 && ChainPos(base, idx) + 4 <= |mem| &&
      IsChain(mem, base, WordAt(mem, ChainPos(base, idx)), chain[1..])
  }

  function SymbolPos(t: Tables, i: nat): nat {
    t.syms + 16 * i
  }

  function NamePos(mem: seq<Byte>, t: Tables, i: nat): nat
    requires SymbolPos(t, i) + 16 <= |mem|
  {
    t.strtab + WordAt(mem, SymbolPos(t, i))
  }

  function SymbolValue(mem: seq<Byte>, t: Tables, i: nat): Word
    requires SymbolPos(t, i) + 16 <= |mem|
  {
    WordAt(mem, SymbolPos(t, i) + 4)
  }

  datatype Found = FoundAt(i: Word) | Absent | BadTable

  /** The walk along a chain that ends. */
  function Walk(mem: seq<Byte>, t: Tables, chain: seq<Word>, name: seq<Byte>): Found
    decreases |chain|
  {
    if chain == [] then Absent
    else if SymbolPos(t, chain[0]) + 16 > |mem| then BadTable
    else
      match StrCmp(mem, NamePos(mem, t, chain[0]), name)
      case None => BadTable
      case Some(d) => if d == 0 then FoundAt(chain[0]) else Walk(mem, t, chain[1..], name)
  }

  predicate Named(mem: seq<Byte>, t: Tables, i: nat, name: seq<Byte>) {
    SymbolPos(t, i) + 16 <= |mem| && NameAt(mem, NamePos(mem, t, i), name)
  }

  /** Symbol i has a name and lies on the chain of its name's bucket. */
  ghost predicate Hashed(mem: seq<Byte>, t: Tables, chains: seq<seq<Word>>, i: Word) {
    exists name: seq<Byte> :: IsName(name) && Named(mem, t, i, name) && |chains| > 0 &&
      i in chains[ElfHash(name) % |chains|]
  }

  /** A table of n symbols: the buckets and chains lie in the memory, every chain ends and holds indices of
      symbols, and every symbol is on the chain of its bucket. */
  ghost predicate WellFormed(mem: seq<Byte>, t: Tables, n: nat, chains: seq<seq<Word>>) {
    && t.hash + 8 <= |mem| && BucketCount(mem, t) == |chains| > 0
    && ChainBase(mem, t) <= |mem|
    && (forall b :: 0 <= b < |chains| ==> IsChain(mem, ChainBase(mem, t), WordAt(mem, t.hash + 8 + 4 * b), chains[b]))
    && (forall b, k :: 0 <= b < |chains| && 0 <= k < |chains[b]| ==> 0 < chains[b][k] < n)
    && (forall i: Word :: 0 < i < n ==> Hashed(mem, t, chains, i))
  }

  /** A walk over named symbols ends at one of the wanted name, or there is none on the chain. */
  lemma {:induction false} WalkFinds(mem: seq<Byte>, t: Tables, n: nat, chains: seq<seq<Word>>, chain: seq<Word>,
      name: seq<Byte>)
    requires IsName(name)
    requires forall k :: 0 <= k < |chain| ==> Hashed(mem, t, chains, chain[k])
    ensures match Walk(mem, t, chain, name)
      case FoundAt(i) => i in chain && Named(mem, t, i, name)
      case Absent => forall k :: 0 <= k < |chain| ==> !Named(mem, t, chain[k], name)
      case BadTable => false
    decreases |chain|
  {
    if chain != [] {
      assert Hashed(mem, t, chains, chain[0]);
      var held: seq<Byte> :| IsName(held) && Named(mem, t, chain[0], held);
      var p := NamePos(mem, t, chain[0]);
      StrCmpDecides(mem, p, held, name);
      if held != name {
        if NameAt(mem, p, name) {
          OneName(mem, p, held, name);
        }
        WalkFinds(mem, t, n, chains, chain[1..], name);
      }
    }
  }

  /** A lookup starts on the chain of the name's bucket. */
  lemma {:induction false} StartsInBucket(mem: seq<Byte>, t: Tables, n: nat, chains: seq<seq<Word>>, name: seq<Byte>)
    requires WellFormed(mem, t, n, chains)
    ensures FirstIndex(mem, t, name).Some?
    ensures IsChain(mem, ChainBase(mem, t), FirstIndex(mem, t, name).value, chains[ElfHash(name) % |chains|])
  {
    var b := ElfHash(name) % |chains|;
    assert IsChain(mem, ChainBase(mem, t), WordAt(mem, t.hash + 8 + 4 * b), chains[b]);
  }

  /** A symbol that has the name is on the chain of the name's bucket. */
  lemma {:induction false} NamedIsOnChain(mem: seq<Byte>, t: Tables, chains: seq<seq<Word>>, name: seq<Byte>, i: Word)
    requires Hashed(mem, t, chains, i) && IsName(name) && Named(mem, t, i, name)
    ensures |chains| > 0 && i in chains[ElfHash(name) % |chains|]
  {
    var held: seq<Byte> :| IsName(held) && Named(mem, t, i, held) && |chains| > 0 &&
      i in chains[ElfHash(held) % |chains|];
    OneName(mem, NamePos(mem, t, i), held, name);
  }

  /** Lookup in a well-formed table ends without a fault, finds a symbol of that name, and reports none
      exactly when no symbol has it. */
  lemma {:induction false} LookupDecides(mem: seq<Byte>, t: Tables, n: nat, chains: seq<seq<Word>>, name: seq<Byte>)
    requires WellFormed(mem, t, n, chains) && IsName(name)
    ensures match Walk(mem, t, chains[ElfHash(name) % |chains|], name)
      case FoundAt(i) => 0 < i < n && Named(mem, t, i, name)
      case Absent => forall i: Word :: 0 < i < n ==> !Named(mem, t, i, name)
      case BadTable => false
  {
    var chain := chains[ElfHash(name) % |chains|];
    WalkFinds(mem, t, n, chains, chain, name);
    if Walk(mem, t, chain, name).Absent? {
      forall i: Word | 0 < i < n
        ensures !Named(mem, t, i, name)
      {
        if Named(mem, t, i, name) {
          NamedIsOnChain(mem, t, chains, name, i);
        }
      }
    }
  }

  // ---------- locate_elf_symbol ----------

  datatype Located = Value(value: Word) | NoDyn | NoSym | BadImage

  datatype TagResult = At(t: Tables) | NoTables | BadTags

  /** The three tables named by the dynamic tags at dyn. */
  function FindTables(mem: seq<Byte>, segs: seq<Segment>, dyn: Word): TagResult {
    if dyn == 0 then NoTables
    else
      var hash := LastTag(mem, segs, dyn, DT_HASH, 0);
      var syms := LastTag(mem, segs, dyn, DT_SYMTAB, 0);
      var strtab := LastTag(mem, segs, dyn, DT_STRTAB, 0);
      if hash.None? || syms.None? || strtab.None? then BadTags
      else if hash.value == 0 || syms.value == 0 || strtab.value == 0 then NoTables
      else At(Tables(hash.value, syms.value, strtab.value))
  }

  /** The bucket that a lookup starts in has the finite chain given: without one the lookup never ends. */
  predicate BucketEnds(mem: seq<Byte>, t: Tables, name: seq<Byte>, chain: seq<Word>) {
    var first := FirstIndex(mem, t, name);
    first.Some? ==> IsChain(mem, ChainBase(mem, t), first.value, chain)
  }

  function Locate(mem: seq<Byte>, segs: seq<Segment>, dyn: Word, name: seq<Byte>, chain: seq<Word>): Located {
    match FindTables(mem, segs, dyn)
    case BadTags => BadImage
    case NoTables => NoDyn
    case At(t) =>
      if FirstIndex(mem, t, name).None? then BadImage
      else
        match Walk(mem, t, chain, name)
        case BadTable => BadImage
        case Absent => NoSym
        case FoundAt(i) =>
          if SymbolPos(t, i) + 16 > |mem| then BadImage else Value(Translate(segs, SymbolValue(mem, t, i)))
  }

  /** On a well-formed table the chain of the name's bucket ends the lookup; the result is NOSYM exactly when
      no symbol has the name, and otherwise the loaded address of the value of a symbol so named, which is
      the only one if names are not repeated. */
  lemma {:induction false} LocateDecides(mem: seq<Byte>, segs: seq<Segment>, dyn: Word, t: Tables, n: nat,
      chains: seq<seq<Word>>, name: seq<Byte>)
    requires FindTables(mem, segs, dyn) == At(t) && WellFormed(mem, t, n, chains) && IsName(name)
    ensures var chain := chains[ElfHash(name) % |chains|];
      var r := Locate(mem, segs, dyn, name, chain);
      && BucketEnds(mem, t, name, chain)
      && (r.NoSym? || r.Value?)
      && (r.NoSym? <==> forall i: Word :: 0 < i < n ==> !Named(mem, t, i, name))
      && (r.Value? ==> exists i: Word ::
            0 < i < n && Named(mem, t, i, name) && r.value == Translate(segs, SymbolValue(mem, t, i)))
  {
    StartsInBucket(mem, t, n, chains, name);
    LookupDecides(mem, t, n, chains, name);
  }
}
