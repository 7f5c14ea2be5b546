/** Which messages copy_payload copies and which it refuses, told from the sender's items, the receiver's buffers and
    the size of the memory alone. */
module MessageLimits {
  import opened MessageCopy
  import opened Words

  /** A descriptor's bit fields, from the lowest: the continuation bit, the type, five reserved bits, the compound bit
      and the length. */
  function Descriptor(c: nat, kind: nat, reserved: nat, compound: nat, length: nat): nat {
    c + 2 * kind + 16 * reserved + 512 * compound + 1024 * length
  }

  lemma {:induction false} KindOf(c: nat, kind: nat, high: nat)
    requires c < 2 && kind < 8
    ensures (c + 2 * kind + 16 * high) / 2 % 8 == kind
  {
    assert (c + 2 * kind + 16 * high) / 2 == kind + 8 * high;
  }

  lemma {:induction false} CompoundOf(low: nat, compound: nat, length: nat)
    requires low < 512 && compound < 2
    ensures (low + 512 * compound + 1024 * length) / 512 % 2 == compound
    ensures (low + 512 * compound + 1024 * length) / 1024 == length
  {
    assert (low + 512 * compound + 1024 * length) / 512 == compound + 2 * length;
  }

  lemma {:induction false} DescriptorFields(item: Word, c: nat, kind: nat, reserved: nat, compound: nat, length: nat)
    requires c < 2 && kind < 8 && reserved < 32 && compound < 2
    requires item == Descriptor(c, kind, reserved, compound, length)
    ensures ItemType(item) == kind && (ItemCompound(item) <==> compound == 1) && ItemLength(item) == length
  {
    KindOf(c, kind, reserved + 32 * compound + 64 * length);
    CompoundOf(c + 2 * kind + 16 * reserved, compound, length);
  }

  /** The typed items from offset o on are map items and strings that are not compound, and every string has a buffer
      that is not compound either. */
  predicate Simple(from: seq<Word>, brs: seq<Word>, o: nat, br: nat, end: nat)
    requires |from| == UTCB_WORDS && |brs| == BR_COUNT && end <= MR_COUNT + 2
    decreases MR_COUNT + 3 - o
  {
    o >= end ||
    if ItemType(from[o]) == MAP_ITEM then Simple(from, brs, o + 2, br, end)
    else
      ItemType(from[o]) == STRING_ITEM && br + 1 < BR_COUNT && !ItemCompound(from[o]) && !ItemCompound(brs[br]) &&
      Simple(from, brs, o + 2, br + 2, end)
  }

  predicate InMemory(t: Transfer, size: nat) {
    t.src + t.len <= size && t.dst + t.len <= size
  }

  predicate AllInMemory(ts: seq<Transfer>, size: nat) {
    forall i :: 0 <= i < |ts| ==> InMemory(ts[i], size)
  }

  /** The strings that fit lie in the memory, and so do their buffers. */
  predicate FittingInMemory(ts: seq<Transfer>, size: nat) {
    forall i :: 0 <= i < |ts| && ts[i].len <= ts[i].room ==> InMemory(ts[i], size)
  }

  predicate Copyable(from: seq<Word>, brs: seq<Word>, size: nat, accepts: bool, o: nat, br: nat, end: nat)
    requires |from| == UTCB_WORDS && |brs| == BR_COUNT && end <= MR_COUNT + 2
  {
    var ts := Transfers(from, brs, o, br, end);
    Simple(from, brs, o, br, end) && (ts != [] ==> accepts) && AllFit(ts) && AllInMemory(ts, size)
  }

  /** A list of transfers, taken apart. */
  lemma {:induction false} FirstTransfer(head: Transfer, rest: seq<Transfer>, size: nat)
    ensures AllFit([head] + rest) <==> head.len <= head.room && AllFit(rest)
    ensures AllInMemory([head] + rest, size) <==> InMemory(head, size) && AllInMemory(rest, size)
    ensures FittingInMemory([head] + rest, size) ==>
      (head.len <= head.room ==> InMemory(head, size)) && FittingInMemory(rest, size)
  {
    var ts := [head] + rest;
    assert ts[0] == head;
    assert forall i :: 0 <= i < |rest| ==> ts[i + 1] == rest[i];
    forall i | 0 <= i < |ts|
      ensures ts[i] == if i == 0 then head else rest[i - 1]
    {
    }
  }

  /** A string item that can at worst overflow. */
  predicate PlainString(from: seq<Word>, brs: seq<Word>, size: nat, o: nat, br: nat)
    requires o + 1 < |from| && |brs| == BR_COUNT
  {
    !ItemCompound(from[o]) && br + 1 < BR_COUNT && !ItemCompound(brs[br]) &&
    (ItemLength(from[o]) <= ItemLength(brs[br]) ==> InMemory(TransferOf(from, brs, o, br), size))
  }

  /** A string item of a message that can be copied. */
  predicate StringCopyable(from: seq<Word>, brs: seq<Word>, size: nat, accepts: bool, o: nat, br: nat)
    requires o + 1 < |from| && |brs| == BR_COUNT
  {
    accepts && br + 1 < BR_COUNT && !ItemCompound(from[o]) && !ItemCompound(brs[br]) &&
    ItemLength(from[o]) <= ItemLength(brs[br]) && InMemory(TransferOf(from, brs, o, br), size)
  }

  lemma {:induction false} StringIff(from: seq<Word>, to: seq<Word>, brs: seq<Word>, mem: seq<Byte>, accepts: bool,
      o: nat, br: nat)
    requires |from| == |to| == UTCB_WORDS && o <= MR_COUNT && |brs| == BR_COUNT && br > 0 && NamesBuffers(brs, to)
    ensures var r := CopyString(from, to, mem, accepts, o, br);
      (r.ItemsDone? <==> StringCopyable(from, brs, |mem|, accepts, o, br)) && (!accepts ==> r.ItemsOverflow?)
    ensures PlainString(from, brs, |mem|, o, br) ==> !CopyString(from, to, mem, accepts, o, br).ItemsStuck?
  {
    if br + 1 < BR_COUNT {
      assert brs[1..][br] == to[MR_COUNT + 1..][br] && brs[1..][br - 1] == to[MR_COUNT + 1..][br - 1];
    }
  }

  /** One item of a message that can be copied, and the items after it. */
  lemma {:induction false} CopyableFirst(from: seq<Word>, brs: seq<Word>, size: nat, accepts: bool, o: nat, br: nat,
      last: nat)
    requires |from| == UTCB_WORDS && |brs| == BR_COUNT && o + 2 <= last <= MR_COUNT + 2
    ensures Copyable(from, brs, size, accepts, o, br, last) <==>
      (if ItemType(from[o]) == MAP_ITEM then true
       else ItemType(from[o]) == STRING_ITEM && StringCopyable(from, brs, size, accepts, o, br)) &&
      Copyable(from, brs, size, accepts, o + 2, NextBuffer(from[o], br), last)
  {
    var rest := Transfers(from, brs, o + 2, NextBuffer(from[o], br), last);
    if ItemType(from[o]) == STRING_ITEM && br + 1 < BR_COUNT {
      FirstTransfer(TransferOf(from, brs, o, br), rest, size);
    }
  }

  /** Items that can at worst overflow. */
  predicate Plain(from: seq<Word>, brs: seq<Word>, size: nat, o: nat, br: nat, end: nat)
    requires |from| == UTCB_WORDS && |brs| == BR_COUNT && end <= MR_COUNT + 2
  {
    Simple(from, brs, o, br, end) && FittingInMemory(Transfers(from, brs, o, br, end), size)
  }

  lemma {:induction false} PlainFirst(from: seq<Word>, brs: seq<Word>, size: nat, o: nat, br: nat, last: nat)
    requires |from| == UTCB_WORDS && |brs| == BR_COUNT && o + 2 <= last <= MR_COUNT + 2
    requires Plain(from, brs, size, o, br, last)
    ensures Plain(from, brs, size, o + 2, NextBuffer(from[o], br), last)
    ensures ItemType(from[o]) == MAP_ITEM ||
      (ItemType(from[o]) == STRING_ITEM && PlainString(from, brs, size, o, br))
  {
    var rest := Transfers(from, brs, o + 2, NextBuffer(from[o], br), last);
    if ItemType(from[o]) == STRING_ITEM {
      FirstTransfer(TransferOf(from, brs, o, br), rest, size);
    }
  }

  lemma {:induction false} ItemIff(from: seq<Word>, to: seq<Word>, brs: seq<Word>, mem: seq<Byte>, accepts: bool,
      o: nat, br: nat)
    requires |from| == |to| == UTCB_WORDS && o <= MR_COUNT && |brs| == BR_COUNT && br > 0 && NamesBuffers(brs, to)
    ensures CopyItem(from, to, mem, accepts, o, br).ItemsDone? <==>
      ItemType(from[o]) == MAP_ITEM ||
      (ItemType(from[o]) == STRING_ITEM && StringCopyable(from, brs, |mem|, accepts, o, br))
  {
    if ItemType(from[o]) == STRING_ITEM {
      StringIff(from, to, brs, mem, accepts, o, br);
    }
  }

  lemma {:induction false} ItemsIff(from: seq<Word>, to: seq<Word>, brs: seq<Word>, mem: seq<Byte>, accepts: bool,
      o: nat, br: nat, end: nat, last: nat)
    requires |from| == |to| == UTCB_WORDS && EndsAt(o, end, last) && last <= MR_COUNT + 2
    requires |brs| == BR_COUNT && br > 0 && NamesBuffers(brs, to)
    ensures CopyItems(from, to, mem, accepts, o, br, end).ItemsDone? <==>
      Copyable(from, brs, |mem|, accepts, o, br, last)
    decreases end - o
  {
    if o < end {
      NextEndsAt(o, end, last);
      ItemIff(from, to, brs, mem, accepts, o, br);
      CopyableFirst(from, brs, |mem|, accepts, o, br, last);
      var s := CopyItem(from, to, mem, accepts, o, br);
      if s.ItemsDone? && o + 2 < last {
        CopyItemEffect(from, to, brs, mem, accepts, o, br);
        BuffersStay(brs, to, s.words, o);
        ItemsIff(from, s.words, brs, s.mem, accepts, o + 2, NextBuffer(from[o], br), end, last);
      }
    }
  }

  lemma {:induction false} PlainItemsEnd(from: seq<Word>, to: seq<Word>, brs: seq<Word>, mem: seq<Byte>, accepts: bool,
      o: nat, br: nat, end: nat, last: nat)
    requires |from| == |to| == UTCB_WORDS && EndsAt(o, end, last) && last <= MR_COUNT + 2
    requires |brs| == BR_COUNT && br > 0 && NamesBuffers(brs, to) && Plain(from, brs, |mem|, o, br, last)
    ensures !CopyItems(from, to, mem, accepts, o, br, end).ItemsStuck?
    decreases end - o
  {
    if o < end {
      NextEndsAt(o, end, last);
      PlainFirst(from, brs, |mem|, o, br, last);
      if ItemType(from[o]) == STRING_ITEM {
        StringIff(from, to, brs, mem, accepts, o, br);
      }
      var s := CopyItem(from, to, mem, accepts, o, br);
      if s.ItemsDone? && o + 2 < last {
        CopyItemEffect(from, to, brs, mem, accepts, o, br);
        BuffersStay(brs, to, s.words, o);
        PlainItemsEnd(from, s.words, brs, s.mem, accepts, o + 2, NextBuffer(from[o], br), end, last);
      }
    }
  }

  /** copy_payload copies a message exactly if it is of at most 16 words, its items are map items and simple strings
      with simple buffers, strings are accepted if there are any, and every string is no longer than its buffer and
      lies, like its buffer, in the memory. */
  lemma {:induction false} CopiedIff(tag: Tag, from: seq<Word>, to: seq<Word>, mem: seq<Byte>)
    requires |from| == |to| == UTCB_WORDS
    ensures CopyMessage(tag, from, to, mem).Copied? <==>
      tag.u + tag.t <= MR_COUNT &&
      Copyable(from, to[MR_COUNT..], |mem|, AcceptsStrings(to), tag.u + 1, 1, tag.u + WholeItems(tag.t) + 1)
  {
    if tag.u + tag.t <= MR_COUNT {
      var to1 := UntypedCopied(from, to, tag.u);
      var o, last, brs := tag.u + 1, tag.u + WholeItems(tag.t) + 1, to[MR_COUNT..];
      assert NamesBuffers(brs, to1);
      ItemsIff(from, to1, brs, mem, AcceptsStrings(to1), o, 1, tag.u + tag.t + 1, last);
      if tag.t > 0 {
        assert to1[MR_COUNT] == to[MR_COUNT];
      } else {
        assert Transfers(from, brs, o, 1, last) == [];
      }
    }
  }

  /** A message of more than 16 words overflows, and so does every message of the item kinds that are implemented that
      is not copied: because strings are not accepted or one of them is longer than its buffer. */
  lemma {:induction false} OverflowIff(tag: Tag, from: seq<Word>, to: seq<Word>, mem: seq<Byte>)
    requires |from| == |to| == UTCB_WORDS
    requires tag.u + tag.t <= MR_COUNT ==>
      Plain(from, to[MR_COUNT..], |mem|, tag.u + 1, 1, tag.u + WholeItems(tag.t) + 1)
    ensures CopyMessage(tag, from, to, mem).Overflow? <==>
      tag.u + tag.t > MR_COUNT ||
      var ts := Transfers(from, to[MR_COUNT..], tag.u + 1, 1, tag.u + WholeItems(tag.t) + 1);
      (ts != [] && !AcceptsStrings(to)) || exists i :: 0 <= i < |ts| && ts[i].len > ts[i].room
  {
    CopiedIff(tag, from, to, mem);
    if tag.u + tag.t <= MR_COUNT {
      var to1 := UntypedCopied(from, to, tag.u);
      var o, last, brs := tag.u + 1, tag.u + WholeItems(tag.t) + 1, to[MR_COUNT..];
      assert NamesBuffers(brs, to1);
      PlainItemsEnd(from, to1, brs, mem, AcceptsStrings(to1), o, 1, tag.u + tag.t + 1, last);
    }
  }
}
