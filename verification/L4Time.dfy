/** Time values of lib/l4/schedule.c: a 10 bit mantissa and a 5 bit exponent standing for m * 2^e
    microseconds. */
module L4Time {
  import opened Bits
  import opened Words

  datatype Time = Time(m: nat, e: nat, point: bool)

  predicate IsTime(t: Time) {
    t.m < 1024 && t.e < 32
  }

  /** The union's raw view: m in bits 0-9, e in bits 10-14, point in bit 15. */
  function TimeOfRaw(raw: nat): (t: Time)
    ensures IsTime(t)
  {
    Time(raw % 1024, raw / 1024 % 32, raw / 32768 % 2 == 1)
  }

  lemma {:induction false} RawFields(m: nat, e: nat, point: bool)
    requires m < 1024 && e < 32
    ensures TimeOfRaw(m + 1024 * e + if point then 32768 else 0) == Time(m, e, point)
  {
    var high := e + if point then 32 else 0;
    assert (m + 1024 * high) / 1024 == high && (m + 1024 * high) % 1024 == m;
    assert (m + 1024 * high) / 32768 == high / 32;
  }

  const NEVER: Time := Time(0, 0, false)
  const ZERO_TIME: Time := Time(0, 1, false)

  function MaxUnsigned(a: nat, b: nat): nat {
    if a < b then b else a
  }

  /** The mantissa is promoted to a 32 bit int, so m << 22 has its sign bit set from m = 512 on and
      the right shift then copies it; the result is read as unsigned. */
  function AdjFixValue(v: Time, e: nat): Word
    requires IsTime(v) && v.e <= e < 32
  {
    var shifted := v.m * 0x40_0000;
    if v.m < 512 then
      Shr(shifted, e - v.e)
    else
      assert shifted - WORD_LIMIT < 0;
      NegShr(WORD_LIMIT - shifted, e - v.e)
  }

  /** Logical shift of a non-negative int. */
  function Shr(x: nat, n: nat): (r: Word)
    requires x < WORD_LIMIT
    ensures r <= x
  {
    DivBound(x, Pow2(n));
    x / Pow2(n)
  }

  /** Arithmetic shift of the int -x, read back as an unsigned word. */
  function NegShr(x: nat, n: nat): (r: Word)
    requires 0 < x <= 0x8000_0000
    ensures r >= 0x8000_0000
  {
    DivBound(x - 1, Pow2(n));
    WORD_LIMIT - 1 - (x - 1) / Pow2(n)
  }

  lemma {:induction false} DivBound(x: nat, d: nat)
    requires d > 0
    ensures 0 <= x / d <= x
  {
    if x / d > x {
      MulGrows(x / d, d);
    }
  }

  lemma {:induction false} MulGrows(q: nat, d: nat)
    requires d > 0
    ensures q * d >= q
  {
  }

  predicate IsLonger(l: Time, r: Time)
    requires IsTime(l) && IsTime(r)
  {
    var exp := MaxUnsigned(l.e, r.e);
    AdjFixValue(l, exp) > AdjFixValue(r, exp)
  }

  predicate IsShorter(l: Time, r: Time)
    requires IsTime(l) && IsTime(r)
  {
    var exp := MaxUnsigned(l.e, r.e);
    AdjFixValue(l, exp) < AdjFixValue(r, exp)
  }

  predicate IsEqual(l: Time, r: Time)
    requires IsTime(l) && IsTime(r)
  {
    var exp := MaxUnsigned(l.e, r.e);
    AdjFixValue(l, exp) == AdjFixValue(r, exp)
  }

  /** The duration a period stands for. */
  function Duration(t: Time): nat {
    t.m * Pow2(t.e)
  }

  // ---------- What the comparisons decide ----------

  const UNIT: nat := 0x40_0000

  /** The three comparisons answer as the durations do. */
  ghost predicate Agrees(l: Time, r: Time)
    requires IsTime(l) && IsTime(r)
  {
    && (IsLonger(l, r) <==> Duration(l) > Duration(r))
    && (IsShorter(l, r) <==> Duration(l) < Duration(r))
    && (IsEqual(l, r) <==> Duration(l) == Duration(r))
  }

  /** Whether a time of exponent hi.e and one of a smaller or equal exponent are told apart rightly. The
      shift drops the whole of lo against a zero hi when lo.m * 2^22 is below 2^gap, and a mantissa of 512 or
      more is shifted with its sign. */
  predicate Comparable(hi: Time, lo: Time)
    requires hi.e >= lo.e
  {
    var gap := hi.e - lo.e;
    if lo.m < 512 || gap == 0 then
      hi.m > 0 || lo.m == 0 || lo.m * UNIT >= Pow2(gap)
    else
      hi.m * Pow2(gap) < lo.m || (1024 - hi.m) * Pow2(gap) < 1024 - lo.m
  }

  lemma {:induction false} Pow2Unit()
    ensures Pow2(22) == UNIT
  {
    assert Pow2(8) == 256;
    Pow2Sum(8, 8);
    assert Pow2(6) == 64;
    Pow2Sum(16, 6);
  }

  /** Below or above a quotient is below or above the product. */
  lemma {:induction false} AgainstQuotient(x: nat, y: nat, p: nat)
    requires p > 0
    ensures x > y / p <==> x * p > y
    ensures x < y / p <==> (x + 1) * p <= y
  {
    var q := y / p;
    assert q * p <= y < (q + 1) * p;
    if x > q {
      Scale(q + 1, x, p);
    } else {
      Scale(x, q, p);
    }
    if x < q {
      Scale(x + 1, q, p);
    } else {
      Scale(q + 1, x + 1, p);
    }
  }

  lemma {:induction false} Scale(a: int, b: int, p: nat)
    requires a <= b
    ensures a * p <= b * p
  {
  }

  lemma {:induction false} ScaleStrictly(a: int, b: int, p: nat)
    requires p > 0
    ensures a < b <==> a * p < b * p
  {
  }

  /** Durations compare as the mantissas do at the smaller exponent. */
  lemma {:induction false} DurationsCompare(hi: Time, lo: Time)
    requires hi.e >= lo.e
    ensures Duration(hi) > Duration(lo) <==> hi.m * Pow2(hi.e - lo.e) > lo.m
    ensures Duration(hi) < Duration(lo) <==> hi.m * Pow2(hi.e - lo.e) < lo.m
  {
    var p := Pow2(hi.e - lo.e);
    Pow2Sum(hi.e - lo.e, lo.e);
    assert Duration(hi) == (hi.m * p) * Pow2(lo.e);
    ScaleStrictly(lo.m, hi.m * p, Pow2(lo.e));
    ScaleStrictly(hi.m * p, lo.m, Pow2(lo.e));
  }

  lemma {:induction false} UnshiftedValue(t: Time)
    requires IsTime(t)
    ensures AdjFixValue(t, t.e) == t.m * UNIT
  {
    assert Pow2(0) == 1;
  }

  lemma {:induction false} PositiveShift(hi: Time, lo: Time)
    requires IsTime(hi) && IsTime(lo) && hi.e >= lo.e && lo.m < 512
    ensures AdjFixValue(hi, hi.e) > AdjFixValue(lo, hi.e) <==> hi.m * Pow2(hi.e - lo.e) > lo.m
    ensures AdjFixValue(hi, hi.e) < AdjFixValue(lo, hi.e) <==> hi.m * Pow2(hi.e - lo.e) < lo.m && Comparable(hi, lo)
  {
    var p := Pow2(hi.e - lo.e);
    UnshiftedValue(hi);
    AgainstQuotient(hi.m * UNIT, lo.m * UNIT, p);
    assert hi.m * UNIT * p == hi.m * p * UNIT;
    assert (hi.m * UNIT + 1) * p == hi.m * p * UNIT + p;
    if hi.m > 0 && hi.e - lo.e > 22 {
      Pow2Unit();
      Pow2Grows(22, hi.e - lo.e);
      Scale(1, hi.m, p);
    } else if hi.m > 0 {
      Pow2Unit();
      Pow2Grows(hi.e - lo.e, 22);
    }
  }

  lemma {:induction false} SignedShift(hi: Time, lo: Time)
    requires IsTime(hi) && IsTime(lo) && hi.e > lo.e && lo.m >= 512
    ensures AdjFixValue(hi, hi.e) > AdjFixValue(lo, hi.e) <==> (1024 - hi.m) * Pow2(hi.e - lo.e) < 1024 - lo.m
    ensures hi.m < 512 ==> AdjFixValue(hi, hi.e) < AdjFixValue(lo, hi.e)
  {
    var p := Pow2(hi.e - lo.e);
    UnshiftedValue(hi);
    var k := (1024 - hi.m) * UNIT;
    var n := (1024 - lo.m) * UNIT;
    AgainstQuotient(k - 1, n - 1, p);
    assert k * p == (1024 - hi.m) * p * UNIT;
  }

  lemma {:induction false} OrderedAgreeIff(hi: Time, lo: Time)
    requires IsTime(hi) && IsTime(lo) && hi.e >= lo.e
    ensures Agrees(hi, lo) <==> Comparable(hi, lo)
  {
    var p := Pow2(hi.e - lo.e);
    DurationsCompare(hi, lo);
    if lo.m < 512 {
      PositiveShift(hi, lo);
    } else if hi.e == lo.e {
      UnshiftedValue(hi);
      UnshiftedValue(lo);
      assert p == 1;
    } else {
      SignedShift(hi, lo);
      assert p == 2 * Pow2(hi.e - lo.e - 1);
      if hi.m >= 512 {
        Scale(2, p, hi.m);
      } else {
        Scale(1, p, 1024);
      }
    }
  }

  /** Longer, shorter and equal agree with the durations exactly when the time of the larger exponent and
      the other are comparable. */
  lemma {:induction false} ComparisonExactIff(l: Time, r: Time)
    requires IsTime(l) && IsTime(r)
    ensures Agrees(l, r) <==> if l.e >= r.e then Comparable(l, r) else Comparable(r, l)
  {
    if l.e >= r.e {
      OrderedAgreeIff(l, r);
    } else {
      OrderedAgreeIff(r, l);
    }
  }

  /** For mantissas 1 to 511 and all exponents the comparisons are exact, so they order the times as their
      durations do. */
  lemma {:induction false} SmallMantissasExact(l: Time, r: Time)
    requires IsTime(l) && IsTime(r) && 1 <= l.m < 512 && 1 <= r.m < 512
    ensures Agrees(l, r)
  {
    ComparisonExactIff(l, r);
  }

  lemma {:induction false} SmallMantissasOrdered(a: Time, b: Time, c: Time)
    requires IsTime(a) && 1 <= a.m < 512 && IsTime(b) && 1 <= b.m < 512 && IsTime(c) && 1 <= c.m < 512
    ensures IsLonger(a, b) && IsLonger(b, c) ==> IsLonger(a, c)
    ensures IsEqual(a, b) && IsEqual(b, c) ==> IsEqual(a, c)
    ensures IsEqual(a, b) ==> (IsLonger(a, c) <==> IsLonger(b, c))
  {
    SmallMantissasExact(a, b);
    SmallMantissasExact(b, c);
    SmallMantissasExact(a, c);
  }

  /** One microsecond against a zero of exponent 31: the shift loses it. 512 microseconds against 1 * 2^1: the
      sign is copied down. */
  lemma {:induction false} ComparisonFails()
    ensures IsEqual(Time(0, 31, false), Time(1, 0, false)) && Duration(Time(0, 31, false)) < Duration(Time(1, 0, false))
    ensures IsShorter(Time(600, 1, false), Time(512, 0, false)) &&
      Duration(Time(600, 1, false)) > Duration(Time(512, 0, false))
  {
    Pow2Unit();
    Pow2Sum(22, 9);
    assert Pow2(9) == 512;
    assert 0 * Pow2(31) == 0;
    ComparisonValue();
  }

  lemma {:induction false} ComparisonValue()
    ensures IsShorter(Time(600, 1, false), Time(512, 0, false))
  {
    UnshiftedValue(Time(600, 1, false));
    assert Pow2(1) == 2;
    assert AdjFixValue(Time(512, 0, false), 1) == 0xC000_0000;
  }

  // ---------- The timeouts ----------

  /** A timeout equals never just when its mantissa is zero, and so does the zero timeout. */
  lemma {:induction false} NeverAndZeroAreOne(t: Time)
    requires IsTime(t)
    ensures IsEqual(t, NEVER) <==> t.m == 0
    ensures IsEqual(t, ZERO_TIME) ==> IsEqual(t, NEVER)
  {
    assert Pow2(0) == 1;
    assert AdjFixValue(NEVER, t.e) == 0 by {
      AgainstQuotient(1, 0, Pow2(t.e));
    }
    UnshiftedValue(t);
    if t.e == 0 {
      assert Pow2(1) == 2;
      assert AdjFixValue(ZERO_TIME, 1) == 0;
    } else {
      assert MaxUnsigned(t.e, 1) == t.e;
      AgainstQuotient(1, 0, Pow2(t.e - 1));
      assert AdjFixValue(ZERO_TIME, t.e) == 0;
    }
  }
}
