/** Loaded images of lib/elf/elf.c: the translation of linked to loaded addresses and the relocation of
    an image in place. Memory is a run of bytes from address zero; an access outside it, or through the
    null pointer, is a fault. */
module ElfImage {
  import opened Words

  datatype Segment = Segment(linked: Word, size: Word, loaded: Word, perm: nat)

  // ---------- Little-endian words ----------

  function WordOf(b0: int, b1: int, b2: int, b3: int): int {
    b0 + 0x100 * (b1 + 0x100 * (b2 + 0x100 * b3))
  }

  function WordAt(mem: seq<Byte>, p: nat): Word
    requires p + 4 <= |mem|
  {
    WordOf(mem[p], mem[p + 1], mem[p + 2], mem[p + 3])
  }

  function WithWord(mem: seq<Byte>, p: nat, w: Word): (r: seq<Byte>)
    requires p + 4 <= |mem|
    ensures |r| == |mem| && WordAt(r, p) == w
    ensures forall a :: 0 <= a < |mem| && !(p <= a < p + 4) ==> r[a] == mem[a]
  {
    BytesGiveWord(w);
    mem[p := w % 0x100][p + 1 := w / 0x100 % 0x100][p + 2 := w / 0x1_0000 % 0x100][p + 3 := w / 0x100_0000]
  }

  lemma {:induction false} BytesGiveWord(w: Word)
    ensures WordOf(w % 0x100, w / 0x100 % 0x100, w / 0x1_0000 % 0x100, w / 0x100_0000) == w
  {
    assert w / 0x100 / 0x100 == w / 0x1_0000;
    assert w / 0x1_0000 / 0x100 == w / 0x100_0000;
  }

  lemma {:induction false} LowByte(b: Byte, rest: int)
    ensures (b + 0x100 * rest) % 0x100 == b && (b + 0x100 * rest) / 0x100 == rest
  {
  }

  /** Equal words are equal bytes. */
  lemma {:induction false} BytesOfWord(mem: seq<Byte>, mem': seq<Byte>, p: nat)
    requires p + 4 <= |mem| && p + 4 <= |mem'| && WordAt(mem, p) == WordAt(mem', p)
    ensures forall a :: p <= a < p + 4 ==> mem[a] == mem'[a]
  {
    WordHasBytes(mem[p], mem[p + 1], mem[p + 2], mem[p + 3]);
    WordHasBytes(mem'[p], mem'[p + 1], mem'[p + 2], mem'[p + 3]);
  }

  lemma {:induction false} WordHasBytes(b0: Byte, b1: Byte, b2: Byte, b3: Byte)
    ensures var w := WordOf(b0, b1, b2, b3);
      w % 0x100 == b0 && w / 0x100 % 0x100 == b1 && w / 0x100 / 0x100 % 0x100 == b2 && w / 0x100 / 0x100 / 0x100 == b3
  {
    LowByte(b0, b1 + 0x100 * (b2 + 0x100 * b3));
    LowByte(b1, b2 + 0x100 * b3);
    LowByte(b2, b3);
  }

  // ---------- Address translation ----------

  predicate Covers(seg: Segment, addr: Word) {
    seg.linked <= addr < (seg.linked + seg.size) % WORD_LIMIT
  }

  function LoadedAt(seg: Segment, addr: Word): Word {
    (seg.loaded + (addr - seg.linked)) % WORD_LIMIT
  }

  /** linked_to_loaded_addr; zero is the null pointer. */
  function Translate(segs: seq<Segment>, addr: Word): Word
    decreases |segs|
  {
    if segs == [] then 0
    else if Covers(segs[0], addr) then LoadedAt(segs[0], addr)
    else Translate(segs[1..], addr)
  }

  predicate InSegment(seg: Segment, addr: Word) {
    seg.linked <= addr < seg.linked + seg.size
  }

  /** The linked ranges are pairwise disjoint. */
  ghost predicate DisjointRanges(segs: seq<Segment>) {
    forall i, j :: 0 <= i < j < |segs| ==>
      segs[i].linked + segs[i].size <= segs[j].linked || segs[j].linked + segs[j].size <= segs[i].linked
      || segs[i].size == 0 || segs[j].size == 0
  }

  predicate EndsBelowTop(seg: Segment) {
    seg.linked + seg.size < WORD_LIMIT
  }

  /** The linked ranges are pairwise disjoint and end below the top of the address space. */
  ghost predicate Disjoint(segs: seq<Segment>) {
    DisjointRanges(segs) && forall i :: 0 <= i < |segs| ==> EndsBelowTop(segs[i])
  }

  /** A segment is searched for at the addresses it has, and at none if it reaches the top of the address space:
      its end then wraps to an address at or below its start. */
  lemma {:induction false} CoversIff(seg: Segment, addr: Word)
    ensures Covers(seg, addr) <==> InSegment(seg, addr) && EndsBelowTop(seg)
  {
  }

  /** An address of segment i keeps its distance from the segment's start. */
  lemma {:induction false} TranslateInside(segs: seq<Segment>, i: nat, addr: Word)
    requires Disjoint(segs) && i < |segs| && InSegment(segs[i], addr)
    ensures Translate(segs, addr) == LoadedAt(segs[i], addr)
    decreases i
  {
    if i > 0 {
      assert !Covers(segs[0], addr);
      TranslateInside(segs[1..], i - 1, addr);
    }
  }

  /** An address of no segment has no loaded address. */
  lemma {:induction false} TranslateOutside(segs: seq<Segment>, addr: Word)
    requires forall i :: 0 <= i < |segs| ==> !InSegment(segs[i], addr)
    ensures Translate(segs, addr) == 0
    decreases |segs|
  {
    if segs != [] {
      assert !InSegment(segs[0], addr);
      assert !Covers(segs[0], addr) by {
        assert (segs[0].linked + segs[0].size) % WORD_LIMIT <= segs[0].linked + segs[0].size;
      }
      TranslateOutside(segs[1..], addr);
    }
  }

  lemma {:induction false} TranslateElsewhere(segs: seq<Segment>, i: nat, addr: Word)
    requires DisjointRanges(segs) && i < |segs| && InSegment(segs[i], addr)
    ensures Translate(segs, addr) == if EndsBelowTop(segs[i]) then LoadedAt(segs[i], addr) else 0
    decreases |segs|
  {
    CoversIff(segs[0], addr);
    if i > 0 {
      TranslateElsewhere(segs[1..], i - 1, addr);
    } else if !EndsBelowTop(segs[0]) {
      forall j | 0 <= j < |segs[1..]|
        ensures !InSegment(segs[1..][j], addr)
      {
        assert segs[1..][j] == segs[j + 1];
      }
      TranslateOutside(segs[1..], addr);
    }
  }

  /** Among disjoint segments an address is translated into its segment exactly when that segment ends below the top
      of the address space; one that reaches the top is lost. */
  lemma {:induction false} TranslatedIff(segs: seq<Segment>, i: nat, addr: Word)
    requires DisjointRanges(segs) && i < |segs| && InSegment(segs[i], addr) && LoadedAt(segs[i], addr) != 0
    ensures Translate(segs, addr) == LoadedAt(segs[i], addr) <==> EndsBelowTop(segs[i])
  {
    TranslateElsewhere(segs, i, addr);
  }

  // ---------- Relocation ----------

  const R_ARM_NONE: Word := 0
  const R_ARM_RELATIVE: Word := 23

  datatype Relocated = Done(mem: seq<Byte>) | Unknown(mem: seq<Byte>) | Fault

  /** The relocation loop from the table entry at pos on: the table ends at the first entry of type none. */
  function Relocate(mem: seq<Byte>, segs: seq<Segment>, pos: nat): Relocated
    decreases |mem| - pos
  {
    if pos + 8 > |mem| then Fault
    else if WordAt(mem, pos + 4) == R_ARM_NONE then Done(mem)
    else if WordAt(mem, pos + 4) == R_ARM_RELATIVE then
      var target := Translate(segs, WordAt(mem, pos));
      if target == 0 || target + 4 > |mem| then Fault
      else Relocate(WithWord(mem, target, Translate(segs, WordAt(mem, target))), segs, pos + 8)
    else Unknown(mem)
  }

  /** The table at pos lists relative relocations with these loaded targets, and then comes an entry of type last. */
  ghost predicate Lists(mem: seq<Byte>, segs: seq<Segment>, pos: nat, targets: seq<nat>, last: Word)
    decreases |targets|
  {
    pos + 8 <= |mem| &&
    if targets == [] then WordAt(mem, pos + 4) == last
    else
      WordAt(mem, pos + 4) == R_ARM_RELATIVE && Translate(segs, WordAt(mem, pos)) == targets[0] &&
      Lists(mem, segs, pos + 8, targets[1..], last)
  }

  /** The table at pos lists these targets and is then ended. */
  ghost predicate IsTable(mem: seq<Byte>, segs: seq<Segment>, pos: nat, targets: seq<nat>) {
    Lists(mem, segs, pos, targets, R_ARM_NONE)
  }

  function TableEnd(pos: nat, targets: seq<nat>): nat {
    pos + 8 * |targets| + 8
  }

  /** The targets are non-null words of the memory outside the table, no two of which overlap. */
  ghost predicate Apart(mem: seq<Byte>, pos: nat, targets: seq<nat>) {
    && (forall i :: 0 <= i < |targets| ==> targets[i] != 0 && targets[i] + 4 <= |mem|)
    && (forall i :: 0 <= i < |targets| ==> targets[i] + 4 <= pos || TableEnd(pos, targets) <= targets[i])
    && (forall i, j :: 0 <= i < j < |targets| ==> targets[i] + 4 <= targets[j] || targets[j] + 4 <= targets[i])
  }

  ghost predicate InTargets(targets: seq<nat>, a: nat) {
    exists i :: 0 <= i < |targets| && targets[i] <= a < targets[i] + 4
  }

  lemma {:induction false} TableKept(mem: seq<Byte>, mem': seq<Byte>, segs: seq<Segment>, pos: nat, targets: seq<nat>,
      last: Word)
    requires Lists(mem, segs, pos, targets, last) && |mem'| == |mem|
    requires forall a :: pos <= a < TableEnd(pos, targets) && a < |mem| ==> mem'[a] == mem[a]
    ensures Lists(mem', segs, pos, targets, last) && TableEnd(pos, targets) <= |mem|
    decreases |targets|
  {
    if targets != [] {
      TableKept(mem, mem', segs, pos + 8, targets[1..], last);
    }
  }

  lemma {:induction false} WordKept(mem: seq<Byte>, mem': seq<Byte>, p: nat)
    requires p + 4 <= |mem| == |mem'|
    requires forall a :: p <= a < p + 4 ==> mem'[a] == mem[a]
    ensures WordAt(mem', p) == WordAt(mem, p)
  {
  }

  /** What relocating does to a memory: every listed word is translated and every other byte is kept. */
  ghost predicate TranslatesTargets(mem: seq<Byte>, segs: seq<Segment>, targets: seq<nat>, mem': seq<Byte>) {
    && |mem'| == |mem|
    && (forall i :: 0 <= i < |targets| && targets[i] + 4 <= |mem| ==>
        WordAt(mem', targets[i]) == Translate(segs, WordAt(mem, targets[i])))
    && (forall a :: 0 <= a < |mem| && !InTargets(targets, a) ==> mem'[a] == mem[a])
  }

  /** Relocation preserves meaning: over entries with distinct, non-overlapping targets outside the table every
      listed word ends as the loaded address of what it held, and every other byte is unchanged. The first entry that
      is not relative ends it: well if it is of type none, and as unknown otherwise. */
  lemma {:induction false} EntriesTranslate(mem: seq<Byte>, segs: seq<Segment>, pos: nat, targets: seq<nat>, last: Word)
    requires Lists(mem, segs, pos, targets, last) && last != R_ARM_RELATIVE && Apart(mem, pos, targets)
    ensures var r := Relocate(mem, segs, pos);
      (r.Done? <==> last == R_ARM_NONE) && (r.Unknown? <==> last != R_ARM_NONE) &&
      TranslatesTargets(mem, segs, targets, r.mem)
    decreases |targets|
  {
    if targets != [] {
      var t, rest := targets[0], targets[1..];
      var mem1 := WithWord(mem, t, Translate(segs, WordAt(mem, t)));
      TableKept(mem, mem1, segs, pos + 8, rest, last);
      assert Apart(mem1, pos + 8, rest);
      EntriesTranslate(mem1, segs, pos + 8, rest, last);
      RestTranslated(mem, mem1, segs, pos, targets, Relocate(mem1, segs, pos + 8).mem);
    }
  }

  /** Over a table that is ended. */
  lemma {:induction false} RelocationTranslates(mem: seq<Byte>, segs: seq<Segment>, pos: nat, targets: seq<nat>)
    requires IsTable(mem, segs, pos, targets) && Apart(mem, pos, targets)
    ensures Relocate(mem, segs, pos).Done?
    ensures TranslatesTargets(mem, segs, targets, Relocate(mem, segs, pos).mem)
  {
    EntriesTranslate(mem, segs, pos, targets, R_ARM_NONE);
  }

  lemma {:induction false} RestTranslated(mem: seq<Byte>, mem1: seq<Byte>, segs: seq<Segment>, pos: nat,
      targets: seq<nat>, mem': seq<Byte>)
    requires targets != [] && Apart(mem, pos, targets)
    requires mem1 == WithWord(mem, targets[0], Translate(segs, WordAt(mem, targets[0])))
    requires TranslatesTargets(mem1, segs, targets[1..], mem')
    ensures TranslatesTargets(mem, segs, targets, mem')
  {
    var t, rest := targets[0], targets[1..];
    forall i | 0 <= i < |targets| && targets[i] + 4 <= |mem|
      ensures WordAt(mem', targets[i]) == Translate(segs, WordAt(mem, targets[i]))
    {
      if i == 0 {
        forall a | t <= a < t + 4
          ensures mem'[a] == mem1[a]
        {
          assert !InTargets(rest, a) by {
            assert forall j :: 0 <= j < |rest| ==> rest[j] == targets[j + 1];
          }
        }
        WordKept(mem1, mem', t);
      } else {
        assert rest[i - 1] == targets[i];
        WordKept(mem, mem1, targets[i]);
      }
    }
    forall a | 0 <= a < |mem| && !InTargets(targets, a)
      ensures mem'[a] == mem[a]
    {
      assert !(t <= a < t + 4);
      InRest(targets, a);
    }
  }

  lemma {:induction false} InRest(targets: seq<nat>, a: nat)
    requires targets != []
    ensures InTargets(targets[1..], a) ==> InTargets(targets, a)
  {
    if InTargets(targets[1..], a) {
      var j :| 0 <= j < |targets[1..]| && targets[1..][j] <= a < targets[1..][j] + 4;
      assert targets[j + 1] <= a < targets[j + 1] + 4;
    }
  }

  lemma {:induction false} SameTargets(targets1: seq<nat>, targets2: seq<nat>, a: nat)
    requires multiset(targets1) == multiset(targets2) && InTargets(targets1, a)
    ensures exists j :: 0 <= j < |targets2| && targets2[j] in targets1 && targets2[j] <= a < targets2[j] + 4
  {
    var i :| 0 <= i < |targets1| && targets1[i] <= a < targets1[i] + 4;
    assert targets1[i] in multiset(targets2);
    assert targets1[i] in targets2;
  }

  /** With disjoint segments, a listed word that held an address of segment s ends as that address's place
      in the loaded segment. */
  lemma {:induction false} RelocatedWord(mem: seq<Byte>, segs: seq<Segment>, pos: nat, targets: seq<nat>, i: nat,
      s: nat)
    requires IsTable(mem, segs, pos, targets) && Apart(mem, pos, targets) && Disjoint(segs) && i < |targets|
    requires s < |segs| && InSegment(segs[s], WordAt(mem, targets[i]))
    ensures var r := Relocate(mem, segs, pos);
      r.Done? && |r.mem| == |mem| &&
      WordAt(r.mem, targets[i]) == LoadedAt(segs[s], WordAt(mem, targets[i]))
  {
    RelocationTranslates(mem, segs, pos, targets);
    TranslateInside(segs, s, WordAt(mem, targets[i]));
  }

  /** Two translations of the same words agree on every byte that they started from alike. */
  lemma {:induction false} SameByte(mem1: seq<Byte>, mem2: seq<Byte>, segs: seq<Segment>, targets1: seq<nat>,
      targets2: seq<nat>, m1: seq<Byte>, m2: seq<Byte>, a: nat)
    requires TranslatesTargets(mem1, segs, targets1, m1) && TranslatesTargets(mem2, segs, targets2, m2)
    requires |mem1| == |mem2| && multiset(targets1) == multiset(targets2) && a < |mem1| && mem1[a] == mem2[a]
    requires forall t :: t in targets1 ==> t + 4 <= |mem1| && WordAt(mem1, t) == WordAt(mem2, t)
    ensures m1[a] == m2[a]
  {
    if InTargets(targets1, a) {
      SameTargets(targets1, targets2, a);
      var j :| 0 <= j < |targets2| && targets2[j] in targets1 && targets2[j] <= a < targets2[j] + 4;
      var i :| 0 <= i < |targets1| && targets1[i] == targets2[j];
      BytesOfWord(m1, m2, targets2[j]);
    } else if InTargets(targets2, a) {
      SameTargets(targets2, targets1, a);
    }
  }

  /** The order of the table does not matter: two memories that differ in the table alone, and whose
      tables list the same targets, agree outside the table afterwards. */
  lemma {:induction false} OrderDoesNotMatter(mem1: seq<Byte>, mem2: seq<Byte>, segs: seq<Segment>, pos: nat,
      targets1: seq<nat>, targets2: seq<nat>)
    requires IsTable(mem1, segs, pos, targets1) && Apart(mem1, pos, targets1)
    requires IsTable(mem2, segs, pos, targets2) && Apart(mem2, pos, targets2)
    requires |mem1| == |mem2| && multiset(targets1) == multiset(targets2)
    requires forall a :: 0 <= a < |mem1| && !(pos <= a < TableEnd(pos, targets1)) ==> mem1[a] == mem2[a]
    ensures var r1, r2 := Relocate(mem1, segs, pos), Relocate(mem2, segs, pos);
      && r1.Done? && r2.Done? && |r1.mem| == |r2.mem| == |mem1|
      && forall a :: 0 <= a < |mem1| && !(pos <= a < TableEnd(pos, targets1)) ==> r1.mem[a] == r2.mem[a]
  {
    RelocationTranslates(mem1, segs, pos, targets1);
    RelocationTranslates(mem2, segs, pos, targets2);
    var m1, m2 := Relocate(mem1, segs, pos).mem, Relocate(mem2, segs, pos).mem;
    assert |targets1| == |multiset(targets1)| == |targets2|;
    forall t | t in targets1
      ensures t + 4 <= |mem1| && WordAt(mem1, t) == WordAt(mem2, t)
    {
      var i :| 0 <= i < |targets1| && targets1[i] == t;
      WordKept(mem1, mem2, t);
    }
    forall a | 0 <= a < |mem1| && !(pos <= a < TableEnd(pos, targets1))
      ensures m1[a] == m2[a]
    {
      SameByte(mem1, mem2, segs, targets1, targets2, m1, m2, a);
    }
  }

  /** A target listed twice is translated twice, so distinct targets are needed. */
  lemma {:induction false} ListedTwice(mem: seq<Byte>, segs: seq<Segment>, pos: nat, t: nat)
    requires IsTable(mem, segs, pos, [t, t]) && Apart(mem, pos, [t])
    requires TableEnd(pos, [t, t]) <= t || t + 4 <= pos
    ensures var r := Relocate(mem, segs, pos);
      r.Done? && |r.mem| == |mem| && WordAt(r.mem, t) == Translate(segs, Translate(segs, WordAt(mem, t)))
  {
    var mem1 := WithWord(mem, t, Translate(segs, WordAt(mem, t)));
    assert [t, t][1..] == [t];
    TableKept(mem, mem1, segs, pos + 8, [t], R_ARM_NONE);
    RelocationTranslates(mem1, segs, pos + 8, [t]);
    assert [t][0] == t;
  }

  lemma {:induction false} UnknownSecond(mem: seq<Byte>, segs: seq<Segment>, pos: nat, t: nat)
    requires pos + 16 <= t && t + 4 <= |mem| && WordAt(mem, pos + 4) == R_ARM_RELATIVE &&
      Translate(segs, WordAt(mem, pos)) == t
    requires WordAt(mem, pos + 12) != R_ARM_NONE && WordAt(mem, pos + 12) != R_ARM_RELATIVE
    ensures Relocate(mem, segs, pos) == Unknown(WithWord(mem, t, Translate(segs, WordAt(mem, t))))
  {
    var mem1 := WithWord(mem, t, Translate(segs, WordAt(mem, t)));
    WordKept(mem, mem1, pos + 12);
    assert Relocate(mem1, segs, pos + 8) == Unknown(mem1);
  }

  /** A table at 8 of a relative entry, one of type 2 and a relative entry, for the words at 40 and 44. */
  function HalfTable(): (mem: seq<Byte>)
    ensures |mem| == 48
  {
    var m1 := WithWord(WithWord(seq(48, _ => 0), 8, 140), 12, R_ARM_RELATIVE);
    var m2 := WithWord(WithWord(WithWord(m1, 20, 2), 24, 144), 28, R_ARM_RELATIVE);
    WithWord(WithWord(m2, 40, 104), 44, 104)
  }

  lemma {:induction false} HalfTableWords()
    ensures var mem := HalfTable();
      && WordAt(mem, 8) == 140 && WordAt(mem, 12) == R_ARM_RELATIVE && WordAt(mem, 20) == 2
      && WordAt(mem, 24) == 144 && WordAt(mem, 28) == R_ARM_RELATIVE && WordAt(mem, 40) == 104 && WordAt(mem, 44) == 104
  {
    var m0 := WithWord(seq(48, _ => 0), 8, 140);
    var m1 := WithWord(m0, 12, R_ARM_RELATIVE);
    var m2 := WithWord(m1, 20, 2);
    var m3 := WithWord(m2, 24, 144);
    var m4 := WithWord(m3, 28, R_ARM_RELATIVE);
    var m5 := WithWord(m4, 40, 104);
    var m6 := WithWord(m5, 44, 104);
    WordKept(m0, m6, 8);
    WordKept(m1, m6, 12);
    WordKept(m2, m6, 20);
    WordKept(m3, m6, 24);
    WordKept(m4, m6, 28);
    WordKept(m5, m6, 40);
  }

  lemma {:induction false} HalfTableTargets()
    ensures var segs := [Segment(100, 48, 0, 7)];
      Translate(segs, 140) == 40 && Translate(segs, 144) == 44 && Translate(segs, 104) == 4
  {
    assert [Segment(100, 48, 0, 7)][0] == Segment(100, 48, 0, 7);
  }

  /** The entries behind one of an unknown type are not looked at: of the two listed words, which both hold 104, the
      first is translated and the second is not. */
  lemma {:induction false} UnknownStops()
    ensures var mem, segs := HalfTable(), [Segment(100, 48, 0, 7)];
      && WordAt(mem, 28) == R_ARM_RELATIVE && Translate(segs, WordAt(mem, 24)) == 44
      && WordAt(mem, 40) == WordAt(mem, 44) == 104 && Translate(segs, 104) == 4
      && var r := Relocate(mem, segs, 8);
         r.Unknown? && |r.mem| == 48 && WordAt(r.mem, 40) == 4 && WordAt(r.mem, 44) == 104
  {
    var mem, segs := HalfTable(), [Segment(100, 48, 0, 7)];
    HalfTableWords();
    HalfTableTargets();
    UnknownSecond(mem, segs, 8, 40);
    WordKept(mem, WithWord(mem, 40, 4), 44);
  }
}
