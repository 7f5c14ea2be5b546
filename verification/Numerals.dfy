/** Printing and reading numerals: ui2a, uli2a and ulli2a, which differ in the width of their argument
    alone, and a2d and a2u of lib/tinyprintf/tinyprintf.c. */
module Numerals {
  import opened Bits
  import opened Words

  const BUFFER_SIZE: nat := 23

  // Characters are their ASCII codes.
  const NUL: Byte := 0
  const DIGIT_0: int := 48
  const UPPER_A: int := 65
  const LOWER_A: int := 97

  predicate IsBase(base: nat) {
    base == 8 || base == 10 || base == 16
  }

  function Power(base: nat, k: nat): (p: nat)
    requires base > 0
    ensures p > 0
  {
    if k == 0 then 1 else base * Power(base, k - 1)
  }

  /** The canonical numeral: the digits of n, most significant first, and [0] for zero. */
  function Digits(n: nat, base: nat): (ds: seq<nat>)
    requires base >= 2
    ensures |ds| > 0 && forall i :: 0 <= i < |ds| ==> ds[i] < base
    decreases n
  {
    DivMod(n, base);
    if n < base then [n] else Digits(n / base, base) + [n % base]
  }

  /** A numeral has no leading zero unless it is that of zero. */
  lemma {:induction false} NoLeadingZero(n: nat, base: nat)
    requires base >= 2
    ensures Digits(n, base)[0] == 0 <==> n == 0
    ensures n == 0 ==> Digits(n, base) == [0]
    decreases n
  {
    if n >= base {
      DivMod(n, base);
      NoLeadingZero(n / base, base);
    }
  }

  function Value(ds: seq<nat>, base: nat): nat
    decreases |ds|
  {
    if ds == [] then 0 else Value(ds[..|ds| - 1], base) * base + ds[|ds| - 1]
  }

  lemma {:induction false} ValueAppend(ds: seq<nat>, d: nat, base: nat)
    ensures Value(ds + [d], base) == Value(ds, base) * base + d
  {
    assert (ds + [d])[..|ds + [d]| - 1] == ds;
  }

  lemma {:induction false} DigitsValue(n: nat, base: nat)
    requires base >= 2
    ensures Value(Digits(n, base), base) == n
    decreases n
  {
    if n >= base {
      DivMod(n, base);
      var ds := Digits(n / base, base);
      DigitsValue(n / base, base);
      ValueAppend(ds, n % base, base);
    } else {
      ValueAppend([], n, base);
      assert [] + [n] == [n];
    }
  }

  /** A number below base^k has at most k digits. */
  lemma {:induction false} DigitsFit(n: nat, base: nat, k: nat)
    requires base >= 2 && k > 0 && n < Power(base, k)
    ensures |Digits(n, base)| <= k
    decreases k
  {
    if k == 1 {
      assert Power(base, 1) == base * Power(base, 0) == base;
    }
    if n >= base {
      DivMod(n, base);
      QuotientBetween(n, base, 0, Power(base, k - 1));
      DigitsFit(n / base, base, k - 1);
    }
  }

  // ---------- The digits of a fixed number of places ----------

  /** The k lowest places of n, highest first. */
  function Places(n: nat, base: nat, k: nat): (ds: seq<nat>)
    requires base >= 2
    ensures |ds| == k
    decreases k
  {
    if k == 0 then [] else [n / Power(base, k - 1)] + Places(n % Power(base, k - 1), base, k - 1)
  }

  lemma {:induction false} SplitDivision(n: nat, b: nat, p: nat)
    requires b > 0 && p > 0
    ensures b * p > 0
    ensures n / (b * p) == n / b / p
    ensures n % (b * p) == b * (n / b % p) + n % b
    ensures n % (b * p) / b == n / b % p && n % (b * p) % b == n % b
  {
    var q, r := n / b, n % b;
    var q', r' := q / p, q % p;
    DivMod(n, b);
    DivMod(q, p);
    Distribute(q', p, r', b);
    MulMonotone(r' + 1, p, b);
    Distribute(1, r', 1, b);
    QuotientIs(q', r' * b + r, b * p);
    QuotientIs(r', r, b);
  }

  lemma {:induction false} Distribute(q: nat, p: nat, r: nat, b: nat)
    ensures (q * p + r) * b == q * (b * p) + r * b
  {
    assert q * (b * p) == (q * p) * b;
  }

  lemma {:induction false} LowestPlace(n: nat, base: nat, k: nat)
    requires base >= 2 && k > 0
    ensures Places(n, base, k) == Places(n / base, base, k - 1) + [if k == 1 then n else n % base]
    decreases k
  {
    if k > 1 {
      var p := Power(base, k - 2);
      SplitDivision(n, base, p);
      assert Power(base, k - 1) == base * p;
      LowestPlace(n % (base * p), base, k - 1);
      if k == 2 {
        assert p == 1;
        assert Places(n / base, base, 1) == [n / base / 1] + Places(n / base % 1, base, 0);
      }
    } else {
      assert Power(base, 0) == 1;
    }
  }

  /** When n has exactly k digits its k places are its numeral. */
  lemma {:induction false} PlacesAreDigits(n: nat, base: nat, k: nat)
    requires base >= 2 && k > 0 && n < Power(base, k) && (k == 1 || Power(base, k - 1) <= n)
    ensures Places(n, base, k) == Digits(n, base)
    decreases k
  {
    LowestPlace(n, base, k);
    if k == 1 {
      assert Power(base, 0) == 1 && Power(base, 1) == base;
    } else {
      var p := Power(base, k - 2);
      assert Power(base, k - 1) == base * p && Power(base, k) == base * (base * p);
      MulMonotone(1, p, base);
      assert n >= base;
      QuotientBetween(n, base, p, base * p);
      if k == 2 {
        assert p == 1;
      }
      PlacesAreDigits(n / base, base, k - 1);
    }
  }

  lemma {:induction false} QuotientBetween(n: nat, base: nat, lo: nat, hi: nat)
    requires base > 0 && base * lo <= n < base * hi
    ensures lo <= n / base < hi
  {
    var q := n / base;
    if q < lo {
      MulMonotone(q + 1, lo, base);
    } else if q >= hi {
      MulMonotone(hi, q, base);
    }
  }

  // ---------- Printing ----------

  function DigitChar(d: nat, uc: bool): Byte
    requires d < 16
  {
    d + if d < 10 then DIGIT_0 else (if uc then UPPER_A else LOWER_A) - 10
  }

  function Chars(ds: seq<nat>, uc: bool): (s: seq<Byte>)
    requires forall i :: 0 <= i < |ds| ==> ds[i] < 16
    ensures |s| == |ds| && forall i :: 0 <= i < |ds| ==> s[i] == DigitChar(ds[i], uc)
    decreases |ds|
  {
    if ds == [] then [] else [DigitChar(ds[0], uc)] + Chars(ds[1..], uc)
  }

  /** Both widths of the printer: the numerals of numbers below 2^32 and 2^64 fit the buffer with their
      terminator, and a 64 bit numeral in base 8 fills it. */
  lemma {:induction false} NumeralFits(n: nat, base: nat)
    requires IsBase(base) && n < 0x1_0000_0000_0000_0000
    ensures |Digits(n, base)| + 1 <= BUFFER_SIZE
  {
    LargePowers();
    if base == 8 {
      DigitsFit(n, 8, 22);
    } else if base == 10 {
      DigitsFit(n, 10, 20);
    } else {
      DigitsFit(n, 16, 16);
    }
  }

  lemma {:induction false} MulAssoc(a: nat, b: nat, c: nat)
    ensures a * b * c == a * (b * c)
  {
  }

  lemma {:induction false} PowerSum(base: nat, a: nat, b: nat)
    requires base > 0
    ensures Power(base, a + b) == Power(base, a) * Power(base, b)
    decreases a
  {
    if a > 0 {
      PowerSum(base, a - 1, b);
      MulAssoc(base, Power(base, a - 1), Power(base, b));
      assert Power(base, a) == base * Power(base, a - 1);
      assert Power(base, a + b) == base * Power(base, a - 1 + b);
    }
  }

  lemma {:induction false} LargePowers()
    ensures Power(8, 22) == 0x4_0000_0000_0000_0000
    ensures Power(10, 20) == 100_000_000_000_000_000_000
    ensures Power(16, 16) == 0x1_0000_0000_0000_0000
  {
    assert Power(8, 5) == 32768;
    PowerSum(8, 5, 6);
    assert Power(8, 6) == 262144;
    PowerSum(8, 11, 11);
    assert Power(10, 5) == 100_000;
    PowerSum(10, 5, 5);
    PowerSum(10, 10, 10);
    assert Power(16, 4) == 65536;
    PowerSum(16, 4, 4);
    PowerSum(16, 8, 8);
  }

  /** The printer for arguments below limit, which is 2^32 or 2^64. The divisor never leaves its width, and the
      buffer ends with the numeral of num and its terminator. */
  method PrintUnsigned(num: nat, base: nat, uc: bool, bf: array<Byte>, limit: nat) returns (n: nat)
    requires IsBase(base) && num < limit && (limit == 0x1_0000_0000 || limit == 0x1_0000_0000_0000_0000)
    requires bf.Length == BUFFER_SIZE
    modifies bf
    ensures n == |Digits(num, base)| < BUFFER_SIZE
    ensures bf[..n] == Chars(Digits(num, base), uc) && bf[n] == NUL
  {
    NumeralFits(num, base);
    var k := FindDivisor(num, base, limit);
    PlacesAreDigits(num, base, k);
    assert k < BUFFER_SIZE;
    n := PrintPlaces(num, base, k, uc, bf);
    bf[n] := NUL;
    assert bf[..n] == Chars(Digits(num, base), uc);
  }

  /** The first loop, which finds the highest power of the base that the number reaches: k is the number of
      digits. */
  method FindDivisor(num: nat, base: nat, limit: nat) returns (k: nat)
    requires IsBase(base) && num < limit && limit > 1
    ensures k > 0 && num < Power(base, k) && (k == 1 || Power(base, k - 1) <= num)
    ensures Power(base, k - 1) < limit
  {
    var d: nat := 1;
    k := 1;
    while num / d >= base
      invariant k > 0 && d == Power(base, k - 1) && (k == 1 || d <= num) && d < limit
      decreases num / d
    {
      Shrinks(num, d, base);
      d := d * base;
      k := k + 1;
    }
    QuotientBelow(num, d, base);
  }

  lemma {:induction false} Shrinks(num: nat, d: nat, base: nat)
    requires d > 0 && base >= 2 && num / d >= base
    ensures 0 < d * base <= num && num / (d * base) < num / d
  {
    DivMod(num, d);
    MulMonotone(base, num / d, d);
    SplitDivision(num, d, base);
    DivMod(num / d, base);
  }

  lemma {:induction false} QuotientBelow(num: nat, d: nat, base: nat)
    requires d > 0 && num / d < base
    ensures num < base * d
  {
    DivMod(num, d);
    MulMonotone(num / d + 1, base, d);
  }

  lemma {:induction false} PlaceBelowBase(n: nat, base: nat, k: nat)
    requires base >= 2 && k > 0 && n < Power(base, k)
    ensures n / Power(base, k - 1) < base
  {
    var p := Power(base, k - 1);
    if n / p >= base {
      MulMonotone(base, n / p, p);
    }
  }

  lemma {:induction false} DivideExactly(base: nat, p: nat)
    requires base > 0
    ensures base * p / base == p
  {
    QuotientIs(p, 0, base);
  }

  /** One place, and the places after it. */
  lemma {:induction false} PlaceTurn(all: seq<nat>, n: nat, rest: nat, base: nat, j: nat)
    requires base >= 2 && j > 0 && rest < Power(base, j) && n < |all| && all[n..] == Places(rest, base, j)
    ensures var d := Power(base, j - 1);
      d > 0 && all[n] == rest / d < base && rest % d < d && all[n + 1..] == Places(rest % d, base, j - 1) &&
      d / base == (if j > 1 then Power(base, j - 2) else 0) && (rest >= d ==> all[n] > 0)
  {
    var d := Power(base, j - 1);
    PlaceBelowBase(rest, base, j);
    DivMod(rest, d);
    assert all[n] == all[n..][0] && all[n + 1..] == all[n..][1..];
    if j > 1 {
      assert d == base * Power(base, j - 2);
      DivideExactly(base, Power(base, j - 2));
    } else {
      QuotientIs(0, 1, base);
    }
  }

  /** The second loop: one character a place. The first of several places is not zero, and the last is put
      out even if it is, so none is skipped. */
  method PrintPlaces(num: nat, base: nat, k: nat, uc: bool, bf: array<Byte>) returns (n: nat)
    requires IsBase(base) && 0 < k <= bf.Length && num < Power(base, k) && (k == 1 || Power(base, k - 1) <= num)
    modifies bf
    ensures n == k && forall i :: 0 <= i < k ==>
      Places(num, base, k)[i] < base && bf[i] == DigitChar(Places(num, base, k)[i], uc)
  {
    ghost var all := Places(num, base, k);
    var d: nat, rest: nat := Power(base, k - 1), num;
    ghost var j := k;
    n := 0;
    while d != 0
      invariant 0 <= j <= k && n == k - j && d == (if j == 0 then 0 else Power(base, j - 1))
      invariant rest < Power(base, j) && (j == k ==> rest == num)
      invariant all[n..] == Places(rest, base, j)
      invariant forall i :: 0 <= i < n ==> all[i] < base && bf[i] == DigitChar(all[i], uc)
      decreases j
    {
      var dgt := rest / d;
      PlaceTurn(all, n, rest, base, j);
      assert dgt == all[n] && (n > 0 || dgt > 0 || j == 1);
      rest := rest % d;
      d := d / base;
      j := j - 1;
      if n > 0 || dgt > 0 || d == 0 {
        bf[n] := DigitChar(dgt, uc);
        n := n + 1;
      }
    }
  }

  /** Digits from ten on are letters, from A or from a on as the caller asks. */
  lemma {:induction false} DigitLetters(d: nat, uc: bool)
    requires d < 16
    ensures DigitChar(d, uc) == if d < 10 then 48 + d else if uc then 65 + (d - 10) else 97 + (d - 10)
  {
  }

  // ---------- Reading ----------

  function A2d(ch: Byte): (d: int)
    ensures -1 <= d < 16
  {
    if DIGIT_0 <= ch <= DIGIT_0 + 9 then ch - DIGIT_0
    else if LOWER_A <= ch <= LOWER_A + 5 then ch - LOWER_A + 10
    else if UPPER_A <= ch <= UPPER_A + 5 then ch - UPPER_A + 10
    else -1
  }

  /** A character that a2u goes on at: a digit up to and including the base itself. */
  predicate Continues(ch: Byte, base: nat) {
    0 <= A2d(ch) <= base
  }

  /** num * base + digit in 32 bits. */
  function Next(num: Word, base: nat, digit: int): Word {
    (num * base + digit) % WORD_LIMIT
  }

  /** A reading that stops k characters later. */
  function Later(r: Option<(Word, nat)>, k: nat): Option<(Word, nat)> {
    match r
    case None => None
    case Some(read) => Some((read.0, read.1 + k))
  }

  /** a2u on a string from its first character on, with the number read so far: the number, in 32 bits, and how
      many characters it is made of; None when the string has no character to stop at. */
  function Read(s: seq<Byte>, base: nat, num: Word): (r: Option<(Word, nat)>)
    ensures r.Some? ==> r.value.1 < |s| && !Continues(s[r.value.1], base)
    decreases |s|
  {
    if s == [] then None
    else if !Continues(s[0], base) then Some((num, 0))
    else
      Later(Read(s[1..], base, Next(num, base, A2d(s[0]))), 1)
  }

  /** a2u: ch is the character before position src. */
  method A2u(text: seq<Byte>, ch: Byte, src: nat, base: nat) returns (r: Option<(Byte, nat, Word)>)
    requires src <= |text|
    ensures var read := Read([ch] + text[src..], base, 0);
      && (r.None? <==> read.None?)
      && (r.Some? ==> r.value == (([ch] + text[src..])[read.value.1], src + read.value.1, read.value.0))
  {
    ghost var s := [ch] + text[src..];
    var c, p, num: Word := ch, src, 0;
    while Continues(c, base)
      invariant src <= p <= |text| && c == s[p - src]
      invariant Read(s, base, 0).None? <==> Read(s[p - src..], base, num).None?
      invariant Read(s, base, 0).Some? ==> Read(s, base, 0).value.0 == Read(s[p - src..], base, num).value.0
      invariant Read(s, base, 0).Some? ==> Read(s, base, 0).value.1 == Read(s[p - src..], base, num).value.1 + (p - src)
      decreases |text| - p
    {
      assert s[p - src..][1..] == s[p - src + 1..];
      num := Next(num, base, A2d(c));
      if p == |text| {
        return None;
      }
      c := text[p];
      p := p + 1;
    }
    return Some((c, p, num));
  }

  lemma {:induction false} DigitReadBack(d: nat, uc: bool)
    requires d < 16
    ensures A2d(DigitChar(d, uc)) == d
  {
  }

  lemma {:induction false} ReadOn(s: seq<Byte>, base: nat, num: Word, d: nat, r: Option<(Word, nat)>, k: nat)
    requires s != [] && A2d(s[0]) == d <= base && Read(s[1..], base, Next(num, base, d)) == Later(r, k)
    ensures Read(s, base, num) == Later(r, k + 1)
  {
  }

  /** Reading digits folds them into the number. */
  lemma {:induction false} ReadDigits(ds: seq<nat>, uc: bool, base: nat, num: Word, rest: seq<Byte>)
    requires base <= 16 && (forall i :: 0 <= i < |ds| ==> ds[i] < base)
    ensures Read(Chars(ds, uc) + rest, base, num) == Later(Read(rest, base, Fold(ds, base, num)), |ds|)
    decreases |ds|
  {
    if ds == [] {
      assert Chars(ds, uc) + rest == rest;
    } else {
      CharsSplit(ds, uc, rest);
      ReadDigits(ds[1..], uc, base, Next(num, base, ds[0]), rest);
      ReadOn(Chars(ds, uc) + rest, base, num, ds[0], Read(rest, base, Fold(ds, base, num)), |ds| - 1);
    }
  }

  lemma {:induction false} CharsSplit(ds: seq<nat>, uc: bool, rest: seq<Byte>)
    requires ds != [] && forall i :: 0 <= i < |ds| ==> ds[i] < 16
    ensures var s := Chars(ds, uc) + rest;
      s != [] && A2d(s[0]) == ds[0] && s[1..] == Chars(ds[1..], uc) + rest
  {
    DigitReadBack(ds[0], uc);
    var s := Chars(ds, uc) + rest;
    assert s == [DigitChar(ds[0], uc)] + (Chars(ds[1..], uc) + rest);
  }

  function Fold(ds: seq<nat>, base: nat, num: Word): Word
    decreases |ds|
  {
    if ds == [] then num else Fold(ds[1..], base, Next(num, base, ds[0]))
  }

  /** A numeral that fits 32 bits is folded to its value. */
  lemma {:induction false} FoldIsValue(ds: seq<nat>, more: seq<nat>, base: nat)
    requires base > 0 && Value(ds + more, base) < WORD_LIMIT
    ensures Value(ds, base) < WORD_LIMIT && Fold(more, base, Value(ds, base)) == Value(ds + more, base)
    decreases |more|
  {
    ValueGrows(ds, more, base);
    if more == [] {
      assert ds + more == ds;
    } else {
      var ds1 := ds + [more[0]];
      assert ds1 + more[1..] == ds + more;
      ValueAppend(ds, more[0], base);
      ValueGrows(ds1, more[1..], base);
      assert Next(Value(ds, base), base, more[0]) == Value(ds1, base);
      FoldIsValue(ds1, more[1..], base);
    }
  }

  lemma {:induction false} ValueGrows(ds: seq<nat>, more: seq<nat>, base: nat)
    requires base > 0
    ensures Value(ds, base) <= Value(ds + more, base)
    decreases |more|
  {
    if more == [] {
      assert ds + more == ds;
    } else {
      var all := ds + more;
      assert all[..|all| - 1] == ds + more[..|more| - 1];
      ValueGrows(ds, more[..|more| - 1], base);
      MulMonotone(1, base, Value(all[..|all| - 1], base));
    }
  }

  lemma {:induction false} FoldOfNumeral(n: Word, base: nat)
    requires IsBase(base)
    ensures Fold(Digits(n, base), base, 0) == n
  {
    DigitsValue(n, base);
    assert [] + Digits(n, base) == Digits(n, base);
    FoldIsValue([], Digits(n, base), base);
  }

  /** Round trip: a2u reads a printed number back and stops right behind it exactly when the next character is
      one it does not go on at. */
  lemma {:induction false} ReadsBackIff(n: Word, base: nat, uc: bool, next: Byte, rest: seq<Byte>)
    requires IsBase(base)
    ensures var ds := Digits(n, base);
      Read(Chars(ds, uc) + [next] + rest, base, 0) == Some((n, |ds|)) <==> !Continues(next, base)
  {
    var ds := Digits(n, base);
    assert Chars(ds, uc) + [next] + rest == Chars(ds, uc) + ([next] + rest);
    ReadDigits(ds, uc, base, 0, [next] + rest);
    FoldOfNumeral(n, base);
  }

  /** The terminator and every character that is no digit at all stop the reader, so a printed buffer is read
      back. */
  lemma {:induction false} BufferReadsBack(n: Word, base: nat, uc: bool, rest: seq<Byte>)
    requires IsBase(base)
    ensures Read(Chars(Digits(n, base), uc) + [NUL] + rest, base, 0) == Some((n, |Digits(n, base)|))
  {
    ReadsBackIff(n, base, uc, NUL, rest);
  }

  /** The digit equal to the base is taken as one: base 8 reads "78" as 64, and base 10 reads "1a" as 20. */
  lemma {:induction false} BaseTakenAsDigit()
    ensures Read([55, 56, NUL], 8, 0) == Some((64, 2))
    ensures Read([49, 97, NUL], 10, 0) == Some((20, 2))
  {
    assert [55, 56, NUL][1..] == [56, NUL] && [56, NUL][1..] == [NUL];
    assert Read([NUL], 8, 64) == Some((64, 0));
    assert Read([56, NUL], 8, 7) == Some((64, 1));
    assert [49, 97, NUL][1..] == [97, NUL] && [97, NUL][1..] == [NUL];
    assert Read([NUL], 10, 20) == Some((20, 0));
    assert Read([97, NUL], 10, 1) == Some((20, 1));
  }
}
