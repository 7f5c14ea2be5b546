/** memcpy and memset of lib/string/string.c, byte by byte, and what a copy makes of a text that overlaps its
    target. */
module Memory {
  import opened Bits
  import opened Words

  /** memcpy, which is memmove: a loop that always goes forward. */
  function CopyBytes(mem: seq<Byte>, dst: nat, src: nat, n: nat): (r: seq<Byte>)
    requires dst + n <= |mem| && src + n <= |mem|
    ensures |r| == |mem|
    decreases n
  {
    if n == 0 then mem else CopyBytes(mem[dst := mem[src]], dst + 1, src + 1, n - 1)
  }

  /** memset with zero. */
  function ZeroBytes(mem: seq<Byte>, dst: nat, n: nat): (r: seq<Byte>)
    requires dst + n <= |mem|
    ensures |r| == |mem|
    decreases n
  {
    if n == 0 then mem else ZeroBytes(mem[dst := 0], dst + 1, n - 1)
  }

  lemma {:induction false} ZeroBytesIs(mem: seq<Byte>, dst: nat, n: nat, a: nat)
    requires dst + n <= |mem| && a < |mem|
    ensures ZeroBytes(mem, dst, n)[a] == if dst <= a < dst + n then 0 else mem[a]
    decreases n
  {
    if n > 0 {
      ZeroBytesIs(mem[dst := 0], dst + 1, n - 1, a);
    }
  }

  // ---------- What a copy leaves ----------

  lemma {:induction false} CopyKeepsRest(mem: seq<Byte>, dst: nat, src: nat, n: nat, a: nat)
    requires dst + n <= |mem| && src + n <= |mem| && a < |mem| && !(dst <= a < dst + n)
    ensures CopyBytes(mem, dst, src, n)[a] == mem[a]
    decreases n
  {
    if n > 0 {
      CopyKeepsRest(mem[dst := mem[src]], dst + 1, src + 1, n - 1, a);
    }
  }

  lemma {:induction false} ModBefore(i: nat, d: nat)
    requires 0 < i && 0 < d
    ensures i % d == if (i - 1) % d + 1 == d then 0 else (i - 1) % d + 1
  {
    var q, r := (i - 1) / d, (i - 1) % d;
    DivMod(i - 1, d);
    if r + 1 == d {
      assert i == (q + 1) * d;
      QuotientIs(q + 1, 0, d);
    } else {
      QuotientIs(q, r + 1, d);
    }
  }

  lemma {:induction false} ModLess(i: nat, d: nat)
    requires 0 < d <= i
    ensures (i - d) % d == i % d
  {
    var q, r := (i - d) / d, (i - d) % d;
    DivMod(i - d, d);
    assert i == (q + 1) * d + r;
    QuotientIs(q + 1, r, d);
  }

  lemma {:induction false} ModAtMost(i: nat, d: nat)
    requires d > 0
    ensures i % d <= i
  {
    if i < d {
      QuotientIs(0, i, d);
    }
  }

  /** The byte of the text that is found at offset i of its target: a target that begins d bytes into the text gets
      the first d bytes over and over. */
  function TextOffset(dst: nat, src: nat, i: nat): (k: nat)
    ensures k <= i
  {
    if src < dst then ModAtMost(i, dst - src); i % (dst - src) else i
  }

  lemma {:induction false} CopiedByte(mem: seq<Byte>, dst: nat, src: nat, n: nat, i: nat)
    requires dst + n <= |mem| && src + n <= |mem| && i < n
    ensures CopyBytes(mem, dst, src, n)[dst + i] == mem[src + TextOffset(dst, src, i)]
    decreases n
  {
    var mem1 := mem[dst := mem[src]];
    if i == 0 {
      CopyKeepsRest(mem1, dst + 1, src + 1, n - 1, dst);
      if src < dst {
        QuotientIs(0, 0, dst - src);
      }
    } else {
      CopiedByte(mem1, dst + 1, src + 1, n - 1, i - 1);
      if src < dst {
        ModBefore(i, dst - src);
      }
    }
  }

  /** A text apart from its target arrives. */
  lemma {:induction false} CopyBytesIs(mem: seq<Byte>, dst: nat, src: nat, n: nat, a: nat)
    requires dst + n <= |mem| && src + n <= |mem| && a < |mem|
    requires dst + n <= src || src + n <= dst
    ensures CopyBytes(mem, dst, src, n)[a] == if dst <= a < dst + n then mem[src + (a - dst)] else mem[a]
  {
    if dst <= a < dst + n {
      CopiedByte(mem, dst, src, n, a - dst);
      if src < dst {
        QuotientIs(0, a - dst, dst - src);
      }
    } else {
      CopyKeepsRest(mem, dst, src, n, a);
    }
  }

  // ---------- When a text arrives ----------

  /** A text whose target begins inside it repeats itself at that distance as far as the overlap goes. */
  predicate Repeats(mem: seq<Byte>, dst: nat, src: nat, n: nat)
    requires src + n <= |mem|
  {
    src < dst ==> forall a :: dst <= a < src + n ==> mem[a] == mem[a - (dst - src)]
  }

  lemma {:induction false} RepeatedByte(mem: seq<Byte>, dst: nat, src: nat, n: nat, i: nat)
    requires src + n <= |mem| && i < n && Repeats(mem, dst, src, n)
    ensures mem[src + i] == mem[src + TextOffset(dst, src, i)]
    decreases i
  {
    if src < dst {
      var d := dst - src;
      if i < d {
        QuotientIs(0, i, d);
      } else {
        ModLess(i, d);
        RepeatedByte(mem, dst, src, n, i - d);
        assert mem[src + i] == mem[src + i - d];
      }
    }
  }

  lemma {:induction false} RepeatsWhenEqual(mem: seq<Byte>, dst: nat, src: nat, n: nat)
    requires dst + n <= |mem| && src + n <= |mem|
    requires CopyBytes(mem, dst, src, n)[dst..dst + n] == mem[src..src + n]
    ensures Repeats(mem, dst, src, n)
  {
    var target, text := CopyBytes(mem, dst, src, n)[dst..dst + n], mem[src..src + n];
    if src < dst {
      forall a | dst <= a < src + n
        ensures mem[a] == mem[a - (dst - src)]
      {
        var i, d := a - src, dst - src;
        CopiedByte(mem, dst, src, n, i);
        CopiedByte(mem, dst, src, n, i - d);
        ModLess(i, d);
        assert target[i] == text[i] && target[i - d] == text[i - d];
      }
    }
  }

  /** The target reads as the text did exactly if the target does not begin inside the text, or the text repeats
      itself at that distance. */
  lemma {:induction false} ArrivesIff(mem: seq<Byte>, dst: nat, src: nat, n: nat)
    requires dst + n <= |mem| && src + n <= |mem|
    ensures CopyBytes(mem, dst, src, n)[dst..dst + n] == mem[src..src + n] <==> Repeats(mem, dst, src, n)
  {
    var target, text := CopyBytes(mem, dst, src, n)[dst..dst + n], mem[src..src + n];
    if Repeats(mem, dst, src, n) {
      forall i | 0 <= i < n
        ensures target[i] == text[i]
      {
        CopiedByte(mem, dst, src, n, i);
        RepeatedByte(mem, dst, src, n, i);
      }
    } else if target == text {
      RepeatsWhenEqual(mem, dst, src, n);
    }
  }

  /** Three bytes copied one byte further on leave the first one four times over. */
  lemma {:induction false} OverlapGarbles()
    ensures CopyBytes([1, 2, 3, 4], 1, 0, 3) == [1, 1, 1, 1]
  {
    var m: seq<Byte> := [1, 2, 3, 4];
    assert m[1 := m[0]] == [1, 1, 3, 4];
    assert [1, 1, 3, 4][2 := 1] == [1, 1, 1, 4];
  }

  // ---------- The loops ----------

  method Memcpy(mem: array<Byte>, dst: nat, src: nat, n: nat)
    requires dst + n <= mem.Length && src + n <= mem.Length
    modifies mem
    ensures mem[..] == CopyBytes(old(mem[..]), dst, src, n)
  {
    var i := 0;
    while i < n
      invariant i <= n
      invariant CopyBytes(old(mem[..]), dst, src, n) == CopyBytes(mem[..], dst + i, src + i, n - i)
    {
      ghost var m := mem[..];
      mem[dst + i] := mem[src + i];
      assert mem[..] == m[dst + i := m[src + i]];
      i := i + 1;
    }
  }

  method MemsetZero(mem: array<Byte>, ptr: nat, size: nat)
    requires ptr + size <= mem.Length
    modifies mem
    ensures mem[..] == ZeroBytes(old(mem[..]), ptr, size)
  {
    var cptr, left := ptr, size;
    while left > 0
      invariant 0 <= left <= size && cptr == ptr + (size - left)
      invariant ZeroBytes(old(mem[..]), ptr, size) == ZeroBytes(mem[..], cptr, left)
    {
      ghost var m := mem[..];
      mem[cptr] := 0;
      assert mem[..] == m[cptr := 0];
      cptr, left := cptr + 1, left - 1;
    }
  }
}
