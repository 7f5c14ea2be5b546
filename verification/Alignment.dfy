/** align_ptr of boot/boot.c: rounding up to a power of two by masking. */
module Alignment {
  import opened Bits
  import opened Words

  /** The mask of a power of two is added and its bits are cleared, in 32 bits. */
  function AlignPtr(ptr: Word, align: Word): nat {
    var mask := (align - 1) % WORD_LIMIT;
    And((ptr + mask) % WORD_LIMIT, WORD_LIMIT - 1 - mask)
  }

  function LeastAligned(ptr: nat, align: nat): nat
    requires align > 0
  {
    (ptr + align - 1) / align * align
  }

  /** The multiple k * align below x + 1 and above x - align, for x = ptr + align - 1, is the least not below ptr. */
  lemma {:induction false} LeastMultiple(ptr: nat, align: nat, k: nat, q: nat)
    requires align > 0 && k * align < ptr + align && q * align >= ptr
    ensures k * align <= q * align
  {
    assert (q + 1) * align == q * align + align;
    if q < k {
      MulMonotone(q + 1, k, align);
      assert false;
    }
    MulMonotone(k, q, align);
  }

  lemma {:induction false} RoundedUp(ptr: nat, align: nat, k: nat)
    requires align > 0 && k == (ptr + align - 1) / align
    ensures (k * align) % align == 0 && ptr <= k * align < ptr + align
  {
    DivMod(ptr + align - 1, align);
    QuotientIs(k, 0, align);
  }

  lemma {:induction false} LeastAlignedIs(ptr: nat, align: nat)
    requires align > 0
    ensures LeastAligned(ptr, align) % align == 0 && ptr <= LeastAligned(ptr, align) < ptr + align
    ensures forall q: nat :: q * align >= ptr ==> LeastAligned(ptr, align) <= q * align
  {
    var k := (ptr + align - 1) / align;
    RoundedUp(ptr, align, k);
    forall q: nat | q * align >= ptr
      ensures k * align <= q * align
    {
      LeastMultiple(ptr, align, k, q);
    }
  }

  /** The bits of x from bit k on. */
  function ClearLow(x: nat, k: nat): nat
    decreases k
  {
    if k == 0 then x else 2 * ClearLow(x / 2, k - 1)
  }

  lemma {:induction false} AndClears(x: nat, k: nat, n: nat)
    requires k <= n && x < Pow2(n)
    ensures Pow2(k) <= Pow2(n) && And(x, Pow2(n) - Pow2(k)) == ClearLow(x, k)
    decreases k
  {
    Pow2Grows(k, n);
    if k == 0 {
      AndOnes(x, n);
    } else {
      Pow2Grows(k - 1, n - 1);
      AndClears(x / 2, k - 1, n - 1);
      AndEven(x, Pow2(n - 1) - Pow2(k - 1));
    }
  }

  /** Clearing the k lowest bits rounds down to a multiple of 2^k. */
  lemma {:induction false} ClearLowIs(x: nat, k: nat)
    ensures ClearLow(x, k) == x - x % Pow2(k)
    decreases k
  {
    if k > 0 {
      ClearLowIs(x / 2, k - 1);
      HalfMod(x, Pow2(k - 1));
    }
  }

  lemma {:induction false} Pow2Word()
    ensures Pow2(32) == WORD_LIMIT
  {
    assert Pow2(8) == 256;
    Pow2Sum(8, 8);
    Pow2Sum(16, 16);
  }

  lemma {:induction false} SmallMod(x: nat, w: nat)
    requires x < w
    ensures x % w == x && (x + w) % w == x
  {
    QuotientIs(0, x, w);
    QuotientIs(1, x, w);
  }

  /** Rounding x = ptr + 2^k - 1 down within w = 2^n, when the sum does not wrap. */
  lemma {:induction false} RoundBelow(x: nat, k: nat, n: nat, a: nat, w: nat)
    requires k < n && a == Pow2(k) && w == Pow2(n) && x < w
    ensures 0 < a <= w && And(x, w - a) == x / a * a < w
  {
    AndClears(x, k, n);
    ClearLowIs(x, k);
    DivMod(x, a);
  }

  lemma {:induction false} RoundWrapped(x: nat, k: nat, n: nat, a: nat, w: nat)
    requires k < n && a == Pow2(k) && w == Pow2(n) && w <= x < w + a
    ensures 0 < a <= w && And(x - w, w - a) == 0 && x / a * a == w
  {
    Pow2Grows(k, n);
    Pow2Sum(n - k, k);
    RoundBelow(x - w, k, n, a, w);
    QuotientIs(0, x - w, a);
    QuotientIs(Pow2(n - k), x - w, a);
  }

  lemma {:induction false} AlignPtrRounds(ptr: Word, align: Word, k: nat, n: nat)
    requires k < n && align == Pow2(k) && WORD_LIMIT == Pow2(n)
    ensures 0 < align && LeastAligned(ptr, align) <= WORD_LIMIT
    ensures AlignPtr(ptr, align) == LeastAligned(ptr, align) % WORD_LIMIT
  {
    var x := ptr + align - 1;
    SmallMod(align - 1, WORD_LIMIT);
    if x < WORD_LIMIT {
      RoundBelow(x, k, n, align, WORD_LIMIT);
      SmallMod(x, WORD_LIMIT);
      SmallMod(LeastAligned(ptr, align), WORD_LIMIT);
    } else {
      RoundWrapped(x, k, n, align, WORD_LIMIT);
      SmallMod(x - WORD_LIMIT, WORD_LIMIT);
      SmallMod(0, WORD_LIMIT);
    }
  }

  /** The powers of two below 2^32. */
  predicate IsAlignment(align: Word) {
    exists k | 0 <= k < 32 :: Pow2(k) == align
  }

  /** For a power of two align_ptr is the least aligned address not below its input, reduced to 32 bits: it is
      that address unless none is left below the top, and then zero. */
  lemma {:induction false} AlignPtrIsLeast(ptr: Word, align: Word)
    requires IsAlignment(align)
    ensures align > 0 && LeastAligned(ptr, align) <= WORD_LIMIT
    ensures AlignPtr(ptr, align) == LeastAligned(ptr, align) % WORD_LIMIT
  {
    var k :| 0 <= k < 32 && Pow2(k) == align;
    Pow2Word();
    AlignPtrRounds(ptr, align, k, 32);
  }

  lemma {:induction false} KeepsOffset(k: nat, off: nat, align: nat)
    requires off < align
    ensures (k * align + off) % align == off
  {
    QuotientIs(k, off, align);
  }
}
