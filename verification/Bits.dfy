/** Bitwise operations, powers of two and division on numbers. */
module Bits {
  /** The exclusive or, bit by bit. */
  function Xor(a: nat, b: nat): (r: nat)
    decreases a + b
  {
    if a == 0 && b == 0 then 0 else (if a % 2 == b % 2 then 0 else 1) + 2 * Xor(a / 2, b / 2)
  }

  /** The bitwise and. */
  function And(a: nat, b: nat): nat {
    if a == 0 then 0 else (if a % 2 == 1 && b % 2 == 1 then 1 else 0) + 2 * And(a / 2, b / 2)
  }

  // ---------- Powers of two ----------

  function Pow2(n: nat): (p: nat)
    ensures p > 0
  {
    if n == 0 then 1 else 2 * Pow2(n - 1)
  }

  lemma {:induction false} Pow2Sum(a: nat, b: nat)
    ensures Pow2(a + b) == Pow2(a) * Pow2(b)
    decreases a
  {
    if a > 0 {
      Pow2Sum(a - 1, b);
      assert Pow2(a) * Pow2(b) == 2 * (Pow2(a - 1) * Pow2(b));
    }
  }

  lemma {:induction false} Pow2Grows(a: nat, b: nat)
    requires a <= b
    ensures Pow2(a) <= Pow2(b)
    decreases b
  {
    if a < b {
      Pow2Grows(a, b - 1);
    }
  }

  // ---------- Division ----------

  lemma {:induction false} MulMonotone(a: nat, b: nat, c: nat)
    requires a <= b
    ensures a * c <= b * c
  {
  }

  lemma {:induction false} QuotientIs(q: nat, r: nat, d: nat)
    requires r < d
    ensures (q * d + r) / d == q && (q * d + r) % d == r
  {
    var x := q * d + r;
    var q', r' := x / d, x % d;
    if q' < q {
      MulMonotone(q' + 1, q, d);
    } else if q' > q {
      MulMonotone(q + 1, q', d);
    }
  }

  lemma {:induction false} DivMod(n: nat, d: nat)
    requires d > 0
    ensures n == (n / d) * d + n % d && 0 <= n / d && 0 <= n % d < d
    ensures d >= 2 && n > 0 ==> n / d < n
    ensures n >= d ==> n / d > 0
  {
    if d >= 2 && n > 0 && n / d >= n {
      MulMonotone(n, n / d, d);
      MulMonotone(2, d, n);
    }
    if n / d == 0 {
      assert (n / d) * d == 0;
    }
  }

  lemma {:induction false} HalfMod(x: nat, p: nat)
    requires p > 0
    ensures x % (2 * p) == 2 * (x / 2 % p) + x % 2
  {
    var h := x / 2;
    DivMod(h, p);
    assert x == (h / p) * (2 * p) + (2 * (h % p) + x % 2) by {
      assert (h / p) * (2 * p) == 2 * ((h / p) * p);
    }
    QuotientIs(h / p, 2 * (h % p) + x % 2, 2 * p);
  }

  // ---------- Bits of a word ----------

  lemma {:induction false} AndEven(x: nat, y: nat)
    ensures And(x, 2 * y) == 2 * And(x / 2, y)
    ensures And(x, 2 * y + 1) == x % 2 + 2 * And(x / 2, y)
  {
    assert (2 * y) % 2 == 0 && (2 * y) / 2 == y;
    assert (2 * y + 1) % 2 == 1 && (2 * y + 1) / 2 == y;
    assert And(0, y) == 0;
  }

  lemma {:induction false} AndOnes(x: nat, n: nat)
    requires x < Pow2(n)
    ensures And(x, Pow2(n) - 1) == x
    decreases n
  {
    if n > 0 {
      AndOnes(x / 2, n - 1);
      AndEven(x, Pow2(n - 1) - 1);
    }
  }

  /** No bit of a number is set in its complement. */
  lemma {:induction false} AndComplement(x: nat, n: nat)
    requires x < Pow2(n)
    ensures And(x, Pow2(n) - 1 - x) == 0
    decreases n
  {
    if n > 0 && x > 0 {
      var y := Pow2(n) - 1 - x;
      assert y / 2 == Pow2(n - 1) - 1 - x / 2 && (x % 2 == 1 ==> y % 2 == 0);
      AndComplement(x / 2, n - 1);
    }
  }

  lemma {:induction false} AndStep(x: nat, y: nat)
    ensures And(x, y) == (if x % 2 == 1 && y % 2 == 1 then 1 else 0) + 2 * And(x / 2, y / 2)
  {
    assert And(0, y / 2) == 0;
  }

  lemma {:induction false} Doubled(a: nat, p: nat, b: nat)
    ensures a * (2 * p) + b == 2 * (a * p) + b
    ensures (a * (2 * p) + b) / 2 == a * p + b / 2 && (a * (2 * p) + b) % 2 == b % 2
  {
    assert a * (2 * p) == 2 * (a * p);
  }

  /** A number of the form bit + 2 * (high * p + low), beside bit + 2 * low. */
  lemma {:induction false} JoinParts(x: nat, y: nat, high: nat, p: nat, low: nat, bit: nat)
    requires x == bit + 2 * (high * p + low) && y == bit + 2 * low
    ensures x == high * (2 * p) + y
  {
    assert high * (2 * p) == 2 * (high * p);
  }

  lemma {:induction false} AndSplitStep(a: nat, b: nat, c: nat, d: nat, p: nat)
    requires And(a * p + b / 2, c * p + d / 2) == And(a, c) * p + And(b / 2, d / 2)
    ensures And(a * (2 * p) + b, c * (2 * p) + d) == And(a, c) * (2 * p) + And(b, d)
  {
    var x, y := a * (2 * p) + b, c * (2 * p) + d;
    Doubled(a, p, b);
    Doubled(c, p, d);
    AndStep(x, y);
    AndStep(b, d);
    JoinParts(And(x, y), And(b, d), And(a, c), p, And(b / 2, d / 2), if b % 2 == 1 && d % 2 == 1 then 1 else 0);
  }

  /** The bits from k on and those below are treated apart. */
  lemma {:induction false} AndSplit(a: nat, b: nat, c: nat, d: nat, k: nat)
    requires b < Pow2(k) && d < Pow2(k)
    ensures And(a * Pow2(k) + b, c * Pow2(k) + d) == And(a, c) * Pow2(k) + And(b, d)
    decreases k
  {
    if k == 0 {
      assert Pow2(0) == 1 && And(0, 0) == 0;
    } else {
      AndSplit(a, b / 2, c, d / 2, k - 1);
      AndSplitStep(a, b, c, d, Pow2(k - 1));
    }
  }

  lemma {:induction false} XorZero(x: nat)
    ensures Xor(x, 0) == x
  {
    if x > 0 {
      XorZero(x / 2);
    }
  }

  lemma {:induction false} XorStep(x: nat, y: nat)
    ensures Xor(x, y) == (if x % 2 == y % 2 then 0 else 1) + 2 * Xor(x / 2, y / 2)
  {
  }

  lemma {:induction false} XorLowStep(a: nat, b: nat, c: nat, p: nat)
    requires Xor(a * p + b / 2, c / 2) == a * p + Xor(b / 2, c / 2)
    ensures Xor(a * (2 * p) + b, c) == a * (2 * p) + Xor(b, c)
  {
    var x := a * (2 * p) + b;
    Doubled(a, p, b);
    XorStep(x, c);
    XorStep(b, c);
    JoinParts(Xor(x, c), Xor(b, c), a, p, Xor(b / 2, c / 2), if b % 2 == c % 2 then 0 else 1);
  }

  lemma {:induction false} XorBelow(b: nat, c: nat, k: nat)
    requires b < Pow2(k) && c < Pow2(k)
    ensures Xor(b, c) < Pow2(k)
    decreases k
  {
    if k == 0 {
      XorZero(0);
    } else {
      XorBelow(b / 2, c / 2, k - 1);
      XorStep(b, c);
    }
  }

  /** Exclusive or with a number below 2^k leaves the bits from k on alone. */
  lemma {:induction false} XorLow(a: nat, b: nat, c: nat, k: nat)
    requires b < Pow2(k) && c < Pow2(k)
    ensures Xor(b, c) < Pow2(k) && Xor(a * Pow2(k) + b, c) == a * Pow2(k) + Xor(b, c)
    decreases k
  {
    XorBelow(b, c, k);
    if k == 0 {
      XorZero(a);
      XorZero(0);
    } else {
      XorLow(a, b / 2, c / 2, k - 1);
      XorLowStep(a, b, c, Pow2(k - 1));
    }
  }

  lemma {:induction false} SameHalf(b: nat, b': nat, p: nat)
    requires p > 0 && b % (2 * p) == b' % (2 * p)
    ensures b % 2 == b' % 2 && b / 2 % p == b' / 2 % p
  {
    HalfMod(b, p);
    HalfMod(b', p);
  }

  lemma {:induction false} XorModStep(a: nat, b: nat, b': nat, p: nat)
    requires p > 0 && b % 2 == b' % 2 && Xor(a / 2, b / 2) % p == Xor(a / 2, b' / 2) % p
    ensures Xor(a, b) % (2 * p) == Xor(a, b') % (2 * p)
  {
    XorHalves(a, b);
    XorHalves(a, b');
    HalfMod(Xor(a, b), p);
    HalfMod(Xor(a, b'), p);
  }

  lemma {:induction false} XorHalves(a: nat, b: nat)
    ensures Xor(a, b) / 2 == Xor(a / 2, b / 2) && Xor(a, b) % 2 == if a % 2 == b % 2 then 0 else 1
  {
    XorStep(a, b);
  }

  /** The k lowest bits of an exclusive or depend on the k lowest bits of its operands alone. */
  lemma {:induction false} XorMod(a: nat, b: nat, b': nat, k: nat)
    requires b % Pow2(k) == b' % Pow2(k)
    ensures Xor(a, b) % Pow2(k) == Xor(a, b') % Pow2(k)
    decreases k
  {
    if k > 0 {
      SameHalf(b, b', Pow2(k - 1));
      XorMod(a / 2, b / 2, b' / 2, k - 1);
      XorModStep(a, b, b', Pow2(k - 1));
    }
  }
}
