/** copy_payload of kern/syscall/ipc.c: moving a message from the sender's message registers to the
    receiver's, typed items and string contents included.

    A UTCB is modelled with its 16 message registers and 8 buffer registers as one run of 24 words,
    as they lie in memory: mr[i] is word i and br[i] is word 16 + i. Message register 0 is kept
    apart as a Tag; word 0 is never read. */
module MessageCopy {
  import opened Memory
  import opened Words

  const MR_COUNT: nat := 16
  const UTCB_WORDS: nat := 24

  type Registers = w: seq<Word> | |w| == 24 witness seq(24, _ => 0)

  const MAP_ITEM: nat := 4
  const STRING_ITEM: nat := 0

  function ItemType(w: Word): nat { w / 2 % 8 }
  predicate ItemCompound(w: Word) { w / 512 % 2 == 1 }
  function ItemLength(w: Word): nat { w / 1024 }

  /** Bit 0 of the acceptor in br[0]: string items are welcome. */
  predicate AcceptsStrings(words: seq<Word>)
    requires |words| == UTCB_WORDS
  {
    words[MR_COUNT] % 2 == 1
  }

  /** Copied: the whole message arrived. Overflow: the copy gave up with message_overflow, perhaps
      half way. Stuck: a panic, the endless loop on an item kind that is not implemented, or an
      access outside the UTCB or the memory. */
  datatype CopyResult =
    | Copied(tag: Tag, words: seq<Word>, mem: seq<Byte>)
    | Overflow(words: seq<Word>, mem: seq<Byte>)
    | Stuck

  datatype ItemsResult =
    | ItemsDone(words: seq<Word>, mem: seq<Byte>, offset: nat)
    | ItemsOverflow(words: seq<Word>, mem: seq<Byte>)
    | ItemsStuck

  /** memcpy of a string; None when a range leaves the memory. */
  function MemCopy(mem: seq<Byte>, dst: nat, src: nat, len: nat): (r: Option<seq<Byte>>)
    ensures r.Some? ==> |r.value| == |mem|
  {
    if src + len > |mem| || dst + len > |mem| then None
    else Some(CopyBytes(mem, dst, src, len))
  }

  /** What the branch for one string item does; br is the receiver's buffer register offset. */
  function CopyString(from: seq<Word>, to: seq<Word>, mem: seq<Byte>, accepts: bool, o: nat, br: nat): (r: ItemsResult)
    requires |from| == |to| == UTCB_WORDS && o <= MR_COUNT
    ensures r.ItemsDone? ==> |r.words| == UTCB_WORDS && |r.mem| == |mem|
    ensures r.ItemsOverflow? ==> r.words == to && r.mem == mem
  {
    if !accepts then ItemsOverflow(to, mem)
    else if ItemCompound(from[o]) || MR_COUNT + br + 1 >= UTCB_WORDS || ItemCompound(to[MR_COUNT + br]) then ItemsStuck
    else if ItemLength(to[MR_COUNT + br]) < ItemLength(from[o]) then ItemsOverflow(to, mem)
    else
      var buffer := to[MR_COUNT + br + 1];
      match MemCopy(mem, buffer, from[o + 1], ItemLength(from[o]))
      case None => ItemsStuck
      case Some(mem') => ItemsDone(to[o := from[o]][o + 1 := buffer], mem', o + 2)
  }

  /** One turn of the loop over the typed items. */
  function CopyItem(from: seq<Word>, to: seq<Word>, mem: seq<Byte>, accepts: bool, o: nat, br: nat): (r: ItemsResult)
    requires |from| == |to| == UTCB_WORDS && o <= MR_COUNT
    ensures r.ItemsDone? ==> |r.words| == UTCB_WORDS && |r.mem| == |mem|
    ensures r.ItemsOverflow? ==> r.words == to && r.mem == mem
  {
    if ItemType(from[o]) == MAP_ITEM then ItemsDone(to[o := from[o]][o + 1 := from[o + 1]], mem, o + 2)
    else if ItemType(from[o]) == STRING_ITEM then CopyString(from, to, mem, accepts, o, br)
    else ItemsStuck
  }

  /** Only string items use up a buffer of the receiver. */
  function NextBuffer(item: Word, br: nat): nat {
    if ItemType(item) == STRING_ITEM then br + 2 else br
  }

  /** The loop over the typed items from offset o on. */
  function CopyItems(from: seq<Word>, to: seq<Word>, mem: seq<Byte>, accepts: bool, o: nat, br: nat, end: nat):
      (r: ItemsResult)
    requires |from| == |to| == UTCB_WORDS && end <= MR_COUNT + 1
    ensures r.ItemsDone? ==> |r.words| == UTCB_WORDS && |r.mem| == |mem| && end <= r.offset
    ensures r.ItemsDone? && o <= end ==> r.offset <= end + 1
    ensures r.ItemsOverflow? ==> |r.words| == UTCB_WORDS && |r.mem| == |mem|
    decreases end + 2 - o
  {
    if o >= end then ItemsDone(to, mem, o)
    else
      var r := CopyItem(from, to, mem, accepts, o, br);
      if r.ItemsDone? then CopyItems(from, r.words, r.mem, accepts, o + 2, NextBuffer(from[o], br), end) else r
  }

  function UntypedCopied(from: seq<Word>, to: seq<Word>, u: nat): (r: seq<Word>)
    requires |from| == |to| == UTCB_WORDS && u <= MR_COUNT
    ensures |r| == UTCB_WORDS
  {
    to[..1] + from[1..u + 1] + to[u + 1..]
  }

  /** copy_payload, as far as the two UTCBs and the memory are concerned. */
  function CopyMessage(tag: Tag, from: seq<Word>, to: seq<Word>, mem: seq<Byte>): (r: CopyResult)
    requires |from| == |to| == UTCB_WORDS
    ensures r.Copied? || r.Overflow? ==> |r.words| == UTCB_WORDS && |r.mem| == |mem|
  {
    if tag.u + tag.t > MR_COUNT then Overflow(to, mem)
    else
      var to1 := UntypedCopied(from, to, tag.u);
      match CopyItems(from, to1, mem, AcceptsStrings(to1), tag.u + 1, 1, tag.u + tag.t + 1)
      case ItemsStuck => Stuck
      case ItemsOverflow(words, mem') => Overflow(words, mem')
      case ItemsDone(words, mem', offset) =>
        Copied(Tag(tag.u, offset - (tag.u + 1), 0, tag.labelField), words, mem')
  }

  // ---------- Fidelity ----------

  const BR_COUNT: nat := 8

  /** One string to be moved, and the length of the buffer it is given. */
  datatype Transfer = Transfer(src: nat, dst: nat, len: nat, room: nat)

  function TransferOf(from: seq<Word>, brs: seq<Word>, o: nat, br: nat): Transfer
    requires o + 1 < |from| && br + 1 < |brs|
  {
    Transfer(from[o + 1], brs[br + 1], ItemLength(from[o]), ItemLength(brs[br]))
  }

  /** The strings among the typed items from offset o on, in order, paired with the receiver's
      buffers as its buffer registers brs named them before the copy. */
  function Transfers(from: seq<Word>, brs: seq<Word>, o: nat, br: nat, end: nat): seq<Transfer>
    requires |from| == UTCB_WORDS && |brs| == BR_COUNT && end <= MR_COUNT + 2
    decreases MR_COUNT + 3 - o
  {
    if o >= end then []
    else if ItemType(from[o]) == STRING_ITEM then
      (if br + 1 < BR_COUNT then [TransferOf(from, brs, o, br)] else [])
      + Transfers(from, brs, o + 2, br + 2, end)
    else Transfers(from, brs, o + 2, br, end)
  }

  predicate Disjoint(a: nat, aLen: nat, b: nat, bLen: nat) {
    a + aLen <= b || b + bLen <= a
  }

  /** Writing the buffer of t leaves both the text and the buffer of s alone. */
  predicate Apart(t: Transfer, s: Transfer) {
    Disjoint(t.dst, t.len, s.src, s.len) && Disjoint(t.dst, t.len, s.dst, s.len)
  }

  /** No receiver buffer in use meets another one, or the text of another string; it may meet its own text. */
  ghost predicate Separate(ts: seq<Transfer>) {
    forall i, j :: 0 <= i < |ts| && 0 <= j < |ts| && i != j ==> Apart(ts[i], ts[j])
  }

  /** The string of t reads in after, at the receiver's buffer, as it did in before. */
  predicate Arrived(t: Transfer, before: seq<Byte>, after: seq<Byte>) {
    t.src + t.len <= |before| && t.dst + t.len <= |after| &&
    after[t.dst..t.dst + t.len] == before[t.src..t.src + t.len]
  }

  /** The buffer does not begin inside the text, or the text repeats itself at that distance. */
  predicate Unspoiled(t: Transfer, mem: seq<Byte>) {
    t.src + t.len <= |mem| && Repeats(mem, t.dst, t.src, t.len)
  }

  /** The buffer reads as the byte loop leaves it. */
  predicate Moved(t: Transfer, before: seq<Byte>, after: seq<Byte>) {
    t.src + t.len <= |before| && t.dst + t.len <= |before| == |after| &&
    forall k :: 0 <= k < t.len ==> after[t.dst + k] == before[t.src + TextOffset(t.dst, t.src, k)]
  }

  /** Every string is where the byte loop puts it, and has arrived exactly if its own buffer does not spoil it. */
  ghost predicate AllMoved(ts: seq<Transfer>, before: seq<Byte>, after: seq<Byte>) {
    forall i :: 0 <= i < |ts| ==>
      Moved(ts[i], before, after) && (Arrived(ts[i], before, after) <==> Unspoiled(ts[i], before))
  }

  predicate InBuffer(t: Transfer, a: nat) {
    t.dst <= a < t.dst + t.len
  }

  /** Every byte of the memory outside the buffers of ts is as it was. */
  ghost predicate RestKept(ts: seq<Transfer>, before: seq<Byte>, after: seq<Byte>) {
    |before| == |after| &&
    forall a :: 0 <= a < |before| && before[a] != after[a] ==> exists i :: 0 <= i < |ts| && InBuffer(ts[i], a)
  }

  /** The typed items from offset o on read in words as the message demands: descriptors verbatim, a
      map item's second word verbatim, a string item's second word the receiver's next buffer. */
  predicate ItemsArrived(from: seq<Word>, brs: seq<Word>, words: seq<Word>, o: nat, br: nat, end: nat)
    requires |from| == |words| == UTCB_WORDS && |brs| == BR_COUNT && end <= MR_COUNT + 2
    decreases MR_COUNT + 3 - o
  {
    o >= end ||
    (words[o] == from[o] &&
     if ItemType(from[o]) == MAP_ITEM then
       words[o + 1] == from[o + 1] && ItemsArrived(from, brs, words, o + 2, br, end)
     else
       ItemType(from[o]) == STRING_ITEM && br + 1 < BR_COUNT &&
       words[o + 1] == brs[br + 1] && ItemsArrived(from, brs, words, o + 2, br + 2, end))
  }

  /** Items are two words each, so an odd number of typed words is copied as the next even one. */
  function WholeItems(t: nat): nat {
    t + t % 2
  }

  /** The buffer registers that string items name are the receiver's; br[0], the acceptor, may be overwritten. */
  predicate NamesBuffers(brs: seq<Word>, to: seq<Word>)
    requires |to| == UTCB_WORDS && |brs| == BR_COUNT
  {
    brs[1..] == to[MR_COUNT + 1..]
  }

  lemma {:induction false} CopyItemEffect(from: seq<Word>, to: seq<Word>, brs: seq<Word>, mem: seq<Byte>,
      accepts: bool, o: nat, br: nat)
    requires |from| == |to| == UTCB_WORDS && o <= MR_COUNT && |brs| == BR_COUNT && br > 0 && NamesBuffers(brs, to)
    requires CopyItem(from, to, mem, accepts, o, br).ItemsDone?
    ensures var words := CopyItem(from, to, mem, accepts, o, br).words;
      words[o] == from[o] &&
      (forall k :: 0 <= k < UTCB_WORDS && k != o && k != o + 1 ==> words[k] == to[k]) &&
      (ItemType(from[o]) == MAP_ITEM || ItemType(from[o]) == STRING_ITEM) &&
      (ItemType(from[o]) == MAP_ITEM ==> words[o + 1] == from[o + 1]) &&
      (ItemType(from[o]) == STRING_ITEM ==> br + 1 < BR_COUNT && words[o + 1] == brs[br + 1])
  {
    if MR_COUNT + br + 1 < UTCB_WORDS {
      assert brs[1..][br] == to[MR_COUNT + 1..][br];
    }
  }

  /** Only the last item can reach into the buffer registers. */
  lemma {:induction false} BuffersStay(brs: seq<Word>, to: seq<Word>, words: seq<Word>, o: nat)
    requires |to| == |words| == UTCB_WORDS && |brs| == BR_COUNT && NamesBuffers(brs, to) && o + 1 <= MR_COUNT
    requires forall k :: 0 <= k < UTCB_WORDS && k != o && k != o + 1 ==> words[k] == to[k]
    ensures NamesBuffers(brs, words)
  {
  }

  /** The items from offset o on end at last: at end, or one beyond it. */
  predicate EndsAt(o: nat, end: nat, last: nat) {
    o <= end <= MR_COUNT + 1 && last == o + WholeItems(end - o)
  }

  lemma {:induction false} NextEndsAt(o: nat, end: nat, last: nat)
    requires EndsAt(o, end, last) && o < end
    ensures o + 2 <= last <= MR_COUNT + 2
    ensures o + 2 < last ==> EndsAt(o + 2, end, last)
    ensures o + 2 >= end ==> last == o + 2
  {
  }

  /** The words outside the items from offset o to last are as they were. */
  predicate KeptOutside(to: seq<Word>, words: seq<Word>, o: nat, last: nat)
    requires |to| == |words| == UTCB_WORDS
  {
    forall k :: 0 <= k < UTCB_WORDS && !(o <= k < last) ==> words[k] == to[k]
  }

  lemma {:induction false} CopyItemsFidelity(from: seq<Word>, to: seq<Word>, brs: seq<Word>, mem: seq<Byte>,
      accepts: bool, o: nat, br: nat, end: nat, last: nat)
    requires |from| == |to| == UTCB_WORDS && EndsAt(o, end, last)
    requires |brs| == BR_COUNT && br > 0 && NamesBuffers(brs, to)
    requires CopyItems(from, to, mem, accepts, o, br, end).ItemsDone?
    ensures var r := CopyItems(from, to, mem, accepts, o, br, end);
      last <= MR_COUNT + 2 && r.offset == last && ItemsArrived(from, brs, r.words, o, br, last) &&
      KeptOutside(to, r.words, o, last)
    decreases end - o
  {
    if o < end {
      NextEndsAt(o, end, last);
      var s := CopyItem(from, to, mem, accepts, o, br);
      CopyItemEffect(from, to, brs, mem, accepts, o, br);
      if o + 2 < last {
        BuffersStay(brs, to, s.words, o);
        CopyItemsFidelity(from, s.words, brs, s.mem, accepts, o + 2, NextBuffer(from[o], br), end, last);
      }
    }
  }

  /** No string is longer than its buffer. */
  predicate AllFit(ts: seq<Transfer>) {
    forall i :: 0 <= i < |ts| ==> ts[i].len <= ts[i].room
  }

  /** The strings ts fit and were moved, as far as no buffer meets another one or another text, and nothing but the
      buffers changed. */
  ghost predicate StringsMoved(ts: seq<Transfer>, accepts: bool, before: seq<Byte>, after: seq<Byte>) {
    (ts != [] ==> accepts) && AllFit(ts) && RestKept(ts, before, after) &&
      (Separate(ts) ==> AllMoved(ts, before, after))
  }

  lemma {:induction false} RestKeptStep(head: Transfer, rest: seq<Transfer>, mem: seq<Byte>, mem': seq<Byte>,
      after: seq<Byte>)
    requires MemCopy(mem, head.dst, head.src, head.len) == Some(mem')
    requires RestKept(rest, mem', after)
    ensures RestKept([head] + rest, mem, after)
  {
    var ts := [head] + rest;
    forall a | 0 <= a < |mem| && mem[a] != after[a]
      ensures exists i :: 0 <= i < |ts| && InBuffer(ts[i], a)
    {
      if InBuffer(head, a) {
        assert InBuffer(ts[0], a);
      } else {
        CopyKeepsRest(mem, head.dst, head.src, head.len, a);
        var i :| 0 <= i < |rest| && InBuffer(rest[i], a);
        assert InBuffer(ts[i + 1], a);
      }
    }
  }

  lemma {:induction false} MovedArrives(t: Transfer, before: seq<Byte>, after: seq<Byte>)
    requires Moved(t, before, after)
    ensures Arrived(t, before, after) <==> Unspoiled(t, before)
  {
    var read, copied := after[t.dst..t.dst + t.len], CopyBytes(before, t.dst, t.src, t.len)[t.dst..t.dst + t.len];
    forall k | 0 <= k < t.len
      ensures read[k] == copied[k]
    {
      CopiedByte(before, t.dst, t.src, t.len, k);
      assert after[t.dst + k] == before[t.src + TextOffset(t.dst, t.src, k)];
    }
    ArrivesIff(before, t.dst, t.src, t.len);
  }

  lemma {:induction false} HeadKept(head: Transfer, rest: seq<Transfer>, mem: seq<Byte>, mem': seq<Byte>,
      after: seq<Byte>)
    requires MemCopy(mem, head.dst, head.src, head.len) == Some(mem')
    requires RestKept(rest, mem', after)
    requires forall i :: 0 <= i < |rest| ==> Apart(rest[i], head)
    ensures Moved(head, mem, after)
  {
    forall k | 0 <= k < head.len
      ensures after[head.dst + k] == mem[head.src + TextOffset(head.dst, head.src, k)]
    {
      CopiedByte(mem, head.dst, head.src, head.len, k);
      assert forall i :: 0 <= i < |rest| ==> !InBuffer(rest[i], head.dst + k);
    }
  }

  lemma {:induction false} OtherKept(head: Transfer, t: Transfer, mem: seq<Byte>, mem': seq<Byte>, after: seq<Byte>)
    requires MemCopy(mem, head.dst, head.src, head.len) == Some(mem')
    requires Apart(head, t) && Moved(t, mem', after)
    ensures Moved(t, mem, after)
  {
    forall k | 0 <= k < t.len
      ensures after[t.dst + k] == mem[t.src + TextOffset(t.dst, t.src, k)]
    {
      CopyKeepsRest(mem, head.dst, head.src, head.len, t.src + TextOffset(t.dst, t.src, k));
    }
  }

  /** Moving one string and then strings apart from it leaves them all where the byte loop puts them. */
  lemma {:induction false} AllMovedStep(head: Transfer, rest: seq<Transfer>, mem: seq<Byte>, mem': seq<Byte>,
      after: seq<Byte>)
    requires MemCopy(mem, head.dst, head.src, head.len) == Some(mem')
    requires RestKept(rest, mem', after)
    requires Separate([head] + rest)
    requires Separate(rest) ==> AllMoved(rest, mem', after)
    ensures AllMoved([head] + rest, mem, after)
  {
    var ts := [head] + rest;
    forall i, j | 0 <= i < |rest| && 0 <= j < |rest| && i != j
      ensures Apart(rest[i], rest[j])
    {
      assert Apart(ts[i + 1], ts[j + 1]);
    }
    forall i | 0 <= i < |ts|
      ensures Moved(ts[i], mem, after) && (Arrived(ts[i], mem, after) <==> Unspoiled(ts[i], mem))
    {
      if i == 0 {
        forall j | 0 <= j < |rest|
          ensures Apart(rest[j], head)
        {
          assert Apart(ts[j + 1], ts[0]);
        }
        HeadKept(head, rest, mem, mem', after);
      } else {
        assert Apart(ts[0], ts[i]);
        OtherKept(head, rest[i - 1], mem, mem', after);
      }
      MovedArrives(ts[i], mem, after);
    }
  }

  lemma {:induction false} StringMovedFirst(head: Transfer, rest: seq<Transfer>, accepts: bool, mem: seq<Byte>,
      mem': seq<Byte>, after: seq<Byte>)
    requires accepts && head.len <= head.room && MemCopy(mem, head.dst, head.src, head.len) == Some(mem')
    requires StringsMoved(rest, accepts, mem', after)
    ensures StringsMoved([head] + rest, accepts, mem, after)
  {
    RestKeptStep(head, rest, mem, mem', after);
    if Separate([head] + rest) {
      AllMovedStep(head, rest, mem, mem', after);
    }
  }

  lemma {:induction false} CopyStringMoves(from: seq<Word>, to: seq<Word>, brs: seq<Word>, mem: seq<Byte>,
      accepts: bool, o: nat, br: nat)
    requires |from| == |to| == UTCB_WORDS && o <= MR_COUNT && |brs| == BR_COUNT && br > 0 && NamesBuffers(brs, to)
    requires ItemType(from[o]) == STRING_ITEM && CopyItem(from, to, mem, accepts, o, br).ItemsDone?
    ensures accepts && br + 1 < BR_COUNT && ItemLength(from[o]) <= ItemLength(brs[br])
    ensures MemCopy(mem, brs[br + 1], from[o + 1], ItemLength(from[o])) ==
      Some(CopyItem(from, to, mem, accepts, o, br).mem)
  {
    assert brs[1..][br] == to[MR_COUNT + 1..][br] && brs[1..][br - 1] == to[MR_COUNT + 1..][br - 1];
  }

  lemma {:induction false} CopyItemsStrings(from: seq<Word>, to: seq<Word>, brs: seq<Word>, mem: seq<Byte>,
      accepts: bool, o: nat, br: nat, end: nat, last: nat)
    requires |from| == |to| == UTCB_WORDS && EndsAt(o, end, last)
    requires |brs| == BR_COUNT && br > 0 && NamesBuffers(brs, to)
    requires CopyItems(from, to, mem, accepts, o, br, end).ItemsDone?
    ensures last <= MR_COUNT + 2
    ensures var r := CopyItems(from, to, mem, accepts, o, br, end);
      StringsMoved(Transfers(from, brs, o, br, last), accepts, mem, r.mem)
    decreases end - o
  {
    if o < end {
      NextEndsAt(o, end, last);
      var r := CopyItems(from, to, mem, accepts, o, br, end);
      var s := CopyItem(from, to, mem, accepts, o, br);
      var next := NextBuffer(from[o], br);
      CopyItemEffect(from, to, brs, mem, accepts, o, br);
      var rest := Transfers(from, brs, o + 2, next, last);
      if o + 2 < last {
        BuffersStay(brs, to, s.words, o);
        CopyItemsStrings(from, s.words, brs, s.mem, accepts, o + 2, next, end, last);
      }
      assert StringsMoved(rest, accepts, s.mem, r.mem);
      if ItemType(from[o]) == STRING_ITEM {
        var head := TransferOf(from, brs, o, br);
        CopyStringMoves(from, to, brs, mem, accepts, o, br);
        StringMovedFirst(head, rest, accepts, mem, s.mem, r.mem);
      }
    }
  }

  lemma {:induction false} UntypedArrived(from: seq<Word>, to: seq<Word>, u: nat, words: seq<Word>, end: nat)
    requires |from| == |to| == |words| == UTCB_WORDS && u <= MR_COUNT && u + 1 <= end <= MR_COUNT + 2
    requires KeptOutside(UntypedCopied(from, to, u), words, u + 1, end)
    ensures words[1..u + 1] == from[1..u + 1] && words[end..] == to[end..]
  {
  }

  /** What a complete message looks like at the receiver. A message of 16 words reaches into the buffer
      registers, but not into those of a string item still to come. */
  ghost predicate Faithful(tag: Tag, from: seq<Word>, to: seq<Word>, mem: seq<Byte>, tag': Tag, words: seq<Word>,
      mem': seq<Byte>)
    requires |from| == |to| == |words| == UTCB_WORDS && tag.u + tag.t <= MR_COUNT
  {
    var o, end := tag.u + 1, tag.u + WholeItems(tag.t) + 1;
    var brs := to[MR_COUNT..];
    var ts := Transfers(from, brs, o, 1, end);
    && tag' == tag.(t := WholeItems(tag.t), flags := 0)
    && words[1..o] == from[1..o]
    && ItemsArrived(from, brs, words, o, 1, end)
    && words[end..] == to[end..]
    && StringsMoved(ts, AcceptsStrings(to), mem, mem')
  }

  lemma {:induction false} ItemsFaithful(tag: Tag, from: seq<Word>, to: seq<Word>, mem: seq<Byte>, r: ItemsResult)
    requires |from| == |to| == UTCB_WORDS && tag.u + tag.t <= MR_COUNT
    requires var to1 := UntypedCopied(from, to, tag.u);
      r == CopyItems(from, to1, mem, AcceptsStrings(to1), tag.u + 1, 1, tag.u + tag.t + 1)
    requires r.ItemsDone?
    ensures r.offset == tag.u + WholeItems(tag.t) + 1
    ensures Faithful(tag, from, to, mem, tag.(t := WholeItems(tag.t), flags := 0), r.words, r.mem)
  {
    var to1 := UntypedCopied(from, to, tag.u);
    var o, end, last := tag.u + 1, tag.u + tag.t + 1, tag.u + WholeItems(tag.t) + 1;
    var brs := to[MR_COUNT..];
    assert NamesBuffers(brs, to1);
    CopyItemsFidelity(from, to1, brs, mem, AcceptsStrings(to1), o, 1, end, last);
    CopyItemsStrings(from, to1, brs, mem, AcceptsStrings(to1), o, 1, end, last);
    if tag.t > 0 {
      assert to1[MR_COUNT] == to[MR_COUNT];
    } else {
      assert Transfers(from, brs, o, 1, last) == [];
    }
    UntypedArrived(from, to, tag.u, r.words, last);
  }

  /** A single string whose buffer begins one byte into its own text: no other buffer or text is met, and what
      arrives is the first byte over and over. */
  lemma {:induction false} OwnBufferSpoils()
    ensures var t, mem := Transfer(0, 1, 3, 3), [1, 2, 3, 4];
      Separate([t]) && !Unspoiled(t, mem) &&
      MemCopy(mem, t.dst, t.src, t.len) == Some([1, 1, 1, 1]) && !Arrived(t, mem, [1, 1, 1, 1])
  {
    var mem: seq<Byte> := [1, 2, 3, 4];
    OverlapGarbles();
    assert mem[1] != mem[0];
    assert mem[0..3][1] == 2 && [1, 1, 1, 1][1..4][1] == 1;
  }

  /** Message fidelity, for every message that copy_payload copies to its end: untyped words and map items are
      verbatim, string items keep their descriptor and point to the receiver's own buffers in order, none of which is
      too short, and nothing else of the receiver's registers or of the memory moved. If no buffer meets another one or
      another text, a
      string reads at the receiver as it did at the sender exactly if its buffer does not begin inside its own
      text, or the text repeats itself at that distance. An odd number of typed words counts as the next even
      one. */
  lemma {:induction false} MessageFidelity(tag: Tag, from: seq<Word>, to: seq<Word>, mem: seq<Byte>)
    requires |from| == |to| == UTCB_WORDS
    ensures var r := CopyMessage(tag, from, to, mem);
      r.Copied? ==> tag.u + tag.t <= MR_COUNT && Faithful(tag, from, to, mem, r.tag, r.words, r.mem)
  {
    if tag.u + tag.t <= MR_COUNT {
      var to1 := UntypedCopied(from, to, tag.u);
      var r := CopyItems(from, to1, mem, AcceptsStrings(to1), tag.u + 1, 1, tag.u + tag.t + 1);
      if r.ItemsDone? {
        ItemsFaithful(tag, from, to, mem, r);
      }
    }
  }
}
