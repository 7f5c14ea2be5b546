/** elf_hash of lib/elf/elf.c bit by bit, and the hashes of the two names that the boot loader looks up. */
module SymbolHash {
  import opened Bits
  import opened ElfSymbols
  import opened Words

  // ---------- One character ----------

  lemma {:induction false} XorShifted(a: nat, b: nat, c: nat)
    requires b < 2
    ensures Xor(2 * a + b, 2 * c) == 2 * Xor(a, c) + b
  {
    var x, y := 2 * a + b, 2 * c;
    assert x / 2 == a && x % 2 == b && y / 2 == c && y % 2 == 0;
    XorStep(x, y);
  }

  lemma {:induction false} XorFirstBit(low: nat, c: nat)
    ensures Xor(low, 2 * c) == 2 * Xor(low / 2, c) + low % 2
  {
    XorShifted(low / 2, low % 2, c);
  }

  /** Folding a digit into the second one. */
  lemma {:induction false} XorSecondDigit(low: nat, d: nat)
    ensures Xor(low, 16 * d) == low % 16 + 16 * Xor(low / 16, d)
  {
    XorFirstBit(low, 8 * d);
    XorFirstBit(low / 2, 4 * d);
    XorFirstBit(low / 2 / 2, 2 * d);
    XorFirstBit(low / 2 / 2 / 2, d);
    assert low / 2 / 2 / 2 / 2 == low / 16;
  }

  lemma {:induction false} TopCleared(q: nat, low: nat)
    requires low < 256
    ensures (q * 256 + low) % TOP == low + 256 * (q % 0x10_0000)
  {
    QuotientIs(q / 0x10_0000, q % 0x10_0000 * 256 + low, TOP);
  }

  lemma {:induction false} SecondDigit(x: nat)
    ensures x % 256 / 16 == x / 16 % 16 && x % 256 % 16 == x % 16
  {
    QuotientIs(x / 256 * 16 + x % 256 / 16, x % 256 % 16, 16);
    QuotientIs(x / 256, x % 256 / 16, 16);
  }

  lemma {:induction false} FoldParts(q: nat, low: nat, top: nat)
    requires low < 256 && top < 16
    ensures Xor(q * 256 + low, top * 16) == q * 256 + (low % 16 + 16 * Xor(low / 16, top)) && Xor(low / 16, top) < 16
  {
    assert Pow2(8) == 256 && Pow2(4) == 16;
    XorLow(q, low, top * 16, 8);
    XorSecondDigit(low, top);
    XorBelow(low / 16, top, 4);
  }

  /** The sum with its topmost digit folded into the second one. */
  lemma {:induction false} FoldIs(x: Word)
    ensures Xor(x, x / TOP * 16) == x / 256 * 256 + (x % 16 + 16 * Xor(x / 16 % 16, x / TOP))
    ensures Xor(x / 16 % 16, x / TOP) < 16
  {
    var top, q, low := x / TOP, x / 256, x % 256;
    FoldParts(q, low, top);
    SecondDigit(x);
    assert x == q * 256 + low;
  }

  lemma {:induction false} ClearedIs(x: Word)
    ensures var g := x / TOP * TOP;
      And(if g != 0 then Xor(x, g / 0x100_0000) else x, WORD_LIMIT - 1 - g) == Xor(x, x / TOP * 16) % TOP
  {
    var top := x / TOP;
    var h2 := Xor(x, top * 16);
    TopPower();
    FoldKeepsTop(x, 8);
    ClearTop(h2, top, 28);
    if top == 0 {
      XorZero(x);
    }
  }

  lemma {:induction false} UpperDigits(x: nat)
    ensures x % TOP / 256 == x / 256 % 0x10_0000
  {
  }

  lemma {:induction false} HashSum(h: Word, c: Byte)
    ensures var x := (h * 16 + c) % WORD_LIMIT;
      HashStep(h, c) == x % 16 + 16 * Xor(x / 16 % 16, x / TOP) + 256 * (x % TOP / 256) &&
        Xor(x / 16 % 16, x / TOP) < 16
  {
    var x := (h * 16 + c) % WORD_LIMIT;
    ClearedIs(x);
    FoldIs(x);
    TopCleared(x / 256, x % 16 + 16 * Xor(x / 16 % 16, x / TOP));
    UpperDigits(x);
  }

  /** With x = 16 h + c in 32 bits: the lowest digit is that of x, the second that of x folded with the topmost one,
      and the others are those of x with the topmost one cleared. */
  lemma {:induction false} HashStepIs(h: Word, c: Byte)
    ensures var x, r := (h * 16 + c) % WORD_LIMIT, HashStep(h, c);
      r % 16 == x % 16 && r / 16 % 16 == Xor(x / 16 % 16, x / TOP) && r / 256 == x % TOP / 256
  {
    var x := (h * 16 + c) % WORD_LIMIT;
    HashSum(h, c);
    var d0, d1, mid := x % 16, Xor(x / 16 % 16, x / TOP), x % TOP / 256;
    QuotientIs(d1 + 16 * mid, d0, 16);
    QuotientIs(mid, d1, 16);
    QuotientIs(mid, d0 + 16 * d1, 256);
  }

  // ---------- The digits of a step ----------

  /** A hexadecimal digit by its bits. */
  datatype Hex = Hex(b3: bool, b2: bool, b1: bool, b0: bool)

  function Val(d: Hex): (v: nat)
    ensures v < 16
  {
    (if d.b3 then 8 else 0) + (if d.b2 then 4 else 0) + (if d.b1 then 2 else 0) + (if d.b0 then 1 else 0)
  }

  function XorHex(d: Hex, e: Hex): Hex {
    Hex(d.b3 != e.b3, d.b2 != e.b2, d.b1 != e.b1, d.b0 != e.b0)
  }

  lemma {:induction false} HexHalves(d: Hex)
    ensures Val(d) / 2 == Val(Hex(false, d.b3, d.b2, d.b1)) && (Val(d) % 2 == 1 <==> d.b0)
  {
  }

  lemma {:induction false} XorHexStep(d: Hex, e: Hex)
    ensures Xor(Val(d), Val(e)) ==
      (if d.b0 == e.b0 then 0 else 1) + 2 * Xor(Val(Hex(false, d.b3, d.b2, d.b1)), Val(Hex(false, e.b3, e.b2, e.b1)))
  {
    HexHalves(d);
    HexHalves(e);
    XorStep(Val(d), Val(e));
  }

  lemma {:induction false} XorHexIs(d: Hex, e: Hex)
    ensures Xor(Val(d), Val(e)) == Val(XorHex(d, e))
  {
    var d1, e1 := Hex(false, d.b3, d.b2, d.b1), Hex(false, e.b3, e.b2, e.b1);
    var d2, e2 := Hex(false, false, d.b3, d.b2), Hex(false, false, e.b3, e.b2);
    var d3, e3 := Hex(false, false, false, d.b3), Hex(false, false, false, e.b3);
    XorHexStep(d, e);
    XorHexStep(d1, e1);
    XorHexStep(d2, e2);
    XorHexStep(d3, e3);
    XorZero(0);
  }

  /** The digits of the sum of a step: the topmost, five in the middle and two at the bottom. */
  datatype Digits = Digits(top: Hex, mid: nat, d1: Hex, d0: nat)

  /** The hash that a step leaves. */
  function Next(d: Digits): nat {
    d.d0 + 16 * Val(XorHex(d.d1, d.top)) + 256 * d.mid
  }

  predicate IsSum(h: nat, c: Byte, d: Digits) {
    d.mid < 0x10_0000 && d.d0 < 16 && h * 16 + c == d.d0 + 16 * Val(d.d1) + 256 * d.mid + TOP * Val(d.top)
  }

  lemma {:induction false} SumDigits(x: nat, top: nat, mid: nat, d1: nat, d0: nat)
    requires mid < 0x10_0000 && d0 < 16 && d1 < 16 && top < 16 && x == d0 + 16 * d1 + 256 * mid + TOP * top
    ensures x % WORD_LIMIT == x && x / TOP == top && x % 16 == d0 && x / 16 % 16 == d1 && x % TOP / 256 == mid
  {
    QuotientIs(0, x, WORD_LIMIT);
    QuotientIs(top, d0 + 16 * d1 + 256 * mid, TOP);
    QuotientIs(mid, d0 + 16 * d1, 256);
    QuotientIs(d1 + 16 * (mid + 0x10_0000 * top), d0, 16);
    QuotientIs(mid + 0x10_0000 * top, d1, 16);
  }

  lemma {:induction false} NextIs(h: Word, c: Byte, d: Digits)
    requires h < TOP && IsSum(h, c, d)
    ensures Next(d) == HashStep(h, c) < TOP
  {
    SumDigits(h * 16 + c, Val(d.top), d.mid, Val(d.d1), d.d0);
    HashSum(h, c);
    XorHexIs(d.d1, d.top);
  }

  /** sums[k] holds the digits of the sum made for character k, the hash being h before the first. */
  predicate SumAt(h: nat, name: seq<Byte>, sums: seq<Digits>, k: nat)
    requires k < |name| == |sums|
  {
    IsSum(if k == 0 then h else Next(sums[k - 1]), name[k], sums[k])
  }

  lemma {:induction false} HashBySums(h: Word, name: seq<Byte>, sums: seq<Digits>)
    requires h < TOP && |sums| == |name| > 0 && forall i :: 0 <= i < |name| ==> SumAt(h, name, sums, i)
    ensures HashFrom(h, name) == Next(sums[|sums| - 1])
    decreases |name|
  {
    assert SumAt(h, name, sums, 0);
    NextIs(h, name[0], sums[0]);
    if |name| > 1 {
      forall i | 0 <= i < |name| - 1
        ensures SumAt(Next(sums[0]), name[1..], sums[1..], i)
      {
        assert SumAt(h, name, sums, i + 1);
      }
      HashBySums(Next(sums[0]), name[1..], sums[1..]);
    }
  }

  lemma {:induction false} HashJoin(h: Word, a: seq<Byte>, b: seq<Byte>)
    requires h < TOP
    ensures HashFrom(h, a + b) == HashFrom(HashFrom(h, a), b)
    decreases |a|
  {
    if a == [] {
      assert a + b == b;
    } else {
      assert (a + b)[0] == a[0] && (a + b)[1..] == a[1..] + b;
      HashJoin(HashStep(h, a[0]), a[1..], b);
    }
  }

  // ---------- The names that the boot loader looks up ----------

  const OFFSET_TABLE_1: seq<Byte> := [95, 95, 103, 108, 111, 98, 97]
  const OFFSET_TABLE_2: seq<Byte> := [108, 95, 111, 102, 102, 115, 101]
  const OFFSET_TABLE_3: seq<Byte> := [116, 95, 116, 97, 98, 108, 101]
  /** __global_offset_table. */
  const OFFSET_TABLE_NAME: seq<Byte> := OFFSET_TABLE_1 + (OFFSET_TABLE_2 + OFFSET_TABLE_3)
  const BOOT_INFO_1: seq<Byte> := [95, 95, 76, 52, 95, 98, 111]
  const BOOT_INFO_2: seq<Byte> := [111, 116, 95, 105, 110, 102, 111]
  /** __L4_boot_info. */
  const BOOT_INFO_NAME: seq<Byte> := BOOT_INFO_1 + BOOT_INFO_2

  /** "__globa". */
  lemma {:induction false} GlobalOffsetPart1(h: Word)
    requires h == 0x0
    ensures HashFrom(h, OFFSET_TABLE_1) == 0x55e35e1
  {
    var sums := [
      Digits(Hex(false, false, false, false), 0x0, Hex(false, true, false, true), 15),
      Digits(Hex(false, false, false, false), 0x6, Hex(false, true, false, false), 15),
      Digits(Hex(false, false, false, false), 0x65, Hex(false, true, false, true), 7),
      Digits(Hex(false, false, false, false), 0x655, Hex(true, true, false, true), 12),
      Digits(Hex(false, false, false, false), 0x655e, Hex(false, false, true, false), 15),
      Digits(Hex(false, false, false, false), 0x655e3, Hex(false, true, false, true), 2),
      Digits(Hex(false, true, true, false), 0x55e35, Hex(true, false, false, false), 1)];
    assert SumAt(h, OFFSET_TABLE_1, sums, 0);
    assert SumAt(h, OFFSET_TABLE_1, sums, 1);
    assert SumAt(h, OFFSET_TABLE_1, sums, 2);
    assert SumAt(h, OFFSET_TABLE_1, sums, 3);
    assert SumAt(h, OFFSET_TABLE_1, sums, 4);
    assert SumAt(h, OFFSET_TABLE_1, sums, 5);
    assert SumAt(h, OFFSET_TABLE_1, sums, 6);
    HashBySums(h, OFFSET_TABLE_1, sums);
  }

  /** "l_offse". */
  lemma {:induction false} GlobalOffsetPart2(h: Word)
    requires h == 0x55e35e1
    ensures HashFrom(h, OFFSET_TABLE_2) == 0x5c693a5
  {
    var sums := [
      Digits(Hex(false, true, false, true), 0x5e35e, Hex(false, true, true, true), 12),
      Digits(Hex(false, true, false, true), 0xe35e3, Hex(false, false, false, true), 15),
      Digits(Hex(true, true, true, false), 0x35e35, Hex(false, true, false, true), 15),
      Digits(Hex(false, false, true, true), 0x5e35c, Hex(false, true, false, true), 6),
      Digits(Hex(false, true, false, true), 0xe35c6, Hex(true, true, false, false), 6),
      Digits(Hex(true, true, true, false), 0x35c69, Hex(true, true, false, true), 3),
      Digits(Hex(false, false, true, true), 0x5c693, Hex(true, false, false, true), 5)];
    assert SumAt(h, OFFSET_TABLE_2, sums, 0);
    assert SumAt(h, OFFSET_TABLE_2, sums, 1);
    assert SumAt(h, OFFSET_TABLE_2, sums, 2);
    assert SumAt(h, OFFSET_TABLE_2, sums, 3);
    assert SumAt(h, OFFSET_TABLE_2, sums, 4);
    assert SumAt(h, OFFSET_TABLE_2, sums, 5);
    assert SumAt(h, OFFSET_TABLE_2, sums, 6);
    HashBySums(h, OFFSET_TABLE_2, sums);
  }

  /** "t_table". */
  lemma {:induction false} GlobalOffsetPart3(h: Word)
    requires h == 0x5c693a5
    ensures HashFrom(h, OFFSET_TABLE_3) == 0x60343b5
  {
    var sums := [
      Digits(Hex(false, true, false, true), 0xc693a, Hex(true, true, false, false), 4),
      Digits(Hex(true, true, false, false), 0x693a9, Hex(true, false, false, true), 15),
      Digits(Hex(false, true, true, false), 0x93a96, Hex(false, true, true, false), 4),
      Digits(Hex(true, false, false, true), 0x3a960, Hex(true, false, true, false), 1),
      Digits(Hex(false, false, true, true), 0xa9603, Hex(false, true, true, true), 2),
      Digits(Hex(true, false, true, false), 0x96034, Hex(true, false, false, false), 12),
      Digits(Hex(true, false, false, true), 0x60343, Hex(false, false, true, false), 5)];
    assert SumAt(h, OFFSET_TABLE_3, sums, 0);
    assert SumAt(h, OFFSET_TABLE_3, sums, 1);
    assert SumAt(h, OFFSET_TABLE_3, sums, 2);
    assert SumAt(h, OFFSET_TABLE_3, sums, 3);
    assert SumAt(h, OFFSET_TABLE_3, sums, 4);
    assert SumAt(h, OFFSET_TABLE_3, sums, 5);
    assert SumAt(h, OFFSET_TABLE_3, sums, 6);
    HashBySums(h, OFFSET_TABLE_3, sums);
  }

  lemma {:induction false} GlobalOffsetHash()
    ensures ElfHash(OFFSET_TABLE_NAME) == 0x060343b5
  {
    GlobalOffsetPart1(0);
    HashJoin(0, OFFSET_TABLE_1, OFFSET_TABLE_2 + OFFSET_TABLE_3);
    var h1 := HashFrom(0, OFFSET_TABLE_1);
    GlobalOffsetPart2(h1);
    HashJoin(h1, OFFSET_TABLE_2, OFFSET_TABLE_3);
    GlobalOffsetPart3(HashFrom(h1, OFFSET_TABLE_2));
  }

  /** "__L4_bo". */
  lemma {:induction false} BootInfoPart1(h: Word)
    requires h == 0x0
    ensures HashFrom(h, BOOT_INFO_1) == 0x53fa5ef
  {
    var sums := [
      Digits(Hex(false, false, false, false), 0x0, Hex(false, true, false, true), 15),
      Digits(Hex(false, false, false, false), 0x6, Hex(false, true, false, false), 15),
      Digits(Hex(false, false, false, false), 0x65, Hex(false, false, true, true), 12),
      Digits(Hex(false, false, false, false), 0x653, Hex(true, true, true, true), 4),
      Digits(Hex(false, false, false, false), 0x653f, Hex(true, false, false, true), 15),
      Digits(Hex(false, false, false, false), 0x653fa, Hex(false, true, false, true), 2),
      Digits(Hex(false, true, true, false), 0x53fa5, Hex(true, false, false, false), 15)];
    assert SumAt(h, BOOT_INFO_1, sums, 0);
    assert SumAt(h, BOOT_INFO_1, sums, 1);
    assert SumAt(h, BOOT_INFO_1, sums, 2);
    assert SumAt(h, BOOT_INFO_1, sums, 3);
    assert SumAt(h, BOOT_INFO_1, sums, 4);
    assert SumAt(h, BOOT_INFO_1, sums, 5);
    assert SumAt(h, BOOT_INFO_1, sums, 6);
    HashBySums(h, BOOT_INFO_1, sums);
  }

  /** "ot_info". */
  lemma {:induction false} BootInfoPart2(h: Word)
    requires h == 0x53fa5ef
    ensures HashFrom(h, BOOT_INFO_2) == 0x57fbbdf
  {
    var sums := [
      Digits(Hex(false, true, false, true), 0x3fa5f, Hex(false, true, false, true), 15),
      Digits(Hex(false, false, true, true), 0xfa5f1, Hex(false, true, true, false), 4),
      Digits(Hex(true, true, true, true), 0xa5f15, Hex(true, false, false, true), 15),
      Digits(Hex(true, false, true, false), 0x5f157, Hex(false, true, false, true), 9),
      Digits(Hex(false, true, false, true), 0xf157f, Hex(true, true, true, true), 14),
      Digits(Hex(true, true, true, true), 0x157fb, Hex(false, true, false, false), 6),
      Digits(Hex(false, false, false, true), 0x57fbb, Hex(true, true, false, false), 15)];
    assert SumAt(h, BOOT_INFO_2, sums, 0);
    assert SumAt(h, BOOT_INFO_2, sums, 1);
    assert SumAt(h, BOOT_INFO_2, sums, 2);
    assert SumAt(h, BOOT_INFO_2, sums, 3);
    assert SumAt(h, BOOT_INFO_2, sums, 4);
    assert SumAt(h, BOOT_INFO_2, sums, 5);
    assert SumAt(h, BOOT_INFO_2, sums, 6);
    HashBySums(h, BOOT_INFO_2, sums);
  }

  lemma {:induction false} BootInfoHash()
    ensures ElfHash(BOOT_INFO_NAME) == 0x057fbbdf
  {
    BootInfoPart1(0);
    HashJoin(0, BOOT_INFO_1, BOOT_INFO_2);
    BootInfoPart2(HashFrom(0, BOOT_INFO_1));
  }
}
