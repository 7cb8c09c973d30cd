/** Decimal digit strings: fixed-width zero-padded numerals (as in ISO date
    keys) and the shortest numeral of a number (as in a JavaScript template
    literal), together with their inverse, the value of a digit string. */
module Decimal {

  predicate IsDigit(c: char) {
    '0' <= c <= '9'
  }

  predicate AllDigits(s: string) {
    forall i :: 0 <= i < |s| ==> IsDigit(s[i])
  }

  function DigitValue(c: char): (d: nat)
    requires IsDigit(c)
    ensures d < 10
  {
    (c as int) - ('0' as int)
  }

  function DigitChar(d: nat): (c: char)
    requires d < 10
    ensures IsDigit(c) && DigitValue(c) == d
  {
    (('0' as int) + d) as char
  }

  lemma DigitCharOfValue(c: char)
    requires IsDigit(c)
    ensures DigitChar(DigitValue(c)) == c
  {
  }

  function Pow10(k: nat): (p: nat)
    ensures p >= 1
  {
    if k == 0 then 1 else 10 * Pow10(k - 1)
  }

  /** Value of a digit string read most significant digit first; the empty
      string has value 0. */
  function DigitsValue(s: string): (v: nat)
    requires AllDigits(s)
    ensures v < Pow10(|s|)
  {
    if |s| == 0 then 0
    else
      var front := DigitsValue(s[..|s| - 1]);
      assert front <= Pow10(|s| - 1) - 1;
      front * 10 + DigitValue(s[|s| - 1])
  }

  /** The low `w` decimal digits of `n`, padded on the left with zeros. */
  function FixedDigits(n: nat, w: nat): (s: string)
    ensures |s| == w && AllDigits(s)
  {
    if w == 0 then [] else FixedDigits(n / 10, w - 1) + [DigitChar(n % 10)]
  }

  /** Euclidean division is unique: a quotient/remainder pair in range is the one `/` and `%` give. */
  lemma DivModUnique(n: int, m: int, q: int, t: int)
    requires m > 0 && 0 <= t < m && n == m * q + t
    ensures n / m == q && n % m == t
  {
    var d := q - n / m;
    assert m * q == m * (n / m) + m * d;
    assert m * d == n % m - t;
  }

  /** Splitting off the last decimal digit: `n` modulo `10 * p` is
      `(n / 10) % p` shifted one place, plus the last digit of `n`. */
  lemma ShiftMod(n: nat, p: nat)
    requires p >= 1
    ensures n % (10 * p) == (n / 10 % p) * 10 + n % 10
  {
    var q := n / 10 / p;
    var b := n / 10 % p;
    assert n / 10 == p * q + b;
    assert n == (10 * p) * q + (10 * b + n % 10);
    DivModUnique(n, 10 * p, q, 10 * b + n % 10);
  }

  lemma {:induction false} FixedDigitsValue(n: nat, w: nat)
    ensures DigitsValue(FixedDigits(n, w)) == n % Pow10(w)
  {
    if w == 0 {
      assert n % 1 == 0;
    } else {
      var s := FixedDigits(n, w);
      assert s[..|s| - 1] == FixedDigits(n / 10, w - 1);
      FixedDigitsValue(n / 10, w - 1);
      ShiftMod(n, Pow10(w - 1));
    }
  }

  /** A fixed-width numeral of a number that fits reads back as that number. */
  lemma FixedDigitsRoundTrip(n: nat, w: nat)
    requires n < Pow10(w)
    ensures DigitsValue(FixedDigits(n, w)) == n
  {
    FixedDigitsValue(n, w);
    DivModUnique(n, Pow10(w), 0, n);
  }

  /** A digit string is the fixed-width numeral of its own value. */
  lemma {:induction false} DigitsRoundTrip(s: string)
    requires AllDigits(s)
    ensures FixedDigits(DigitsValue(s), |s|) == s
  {
    if |s| > 0 {
      var front := s[..|s| - 1];
      var v := DigitsValue(s);
      assert v / 10 == DigitsValue(front) && v % 10 == DigitValue(s[|s| - 1]);
      DigitsRoundTrip(front);
      DigitCharOfValue(s[|s| - 1]);
      assert s == front + [s[|s| - 1]];
    }
  }

  /** A six-digit field reads back as any number below a million. */
  lemma FixedDigitsSix(n: nat)
    ensures n < 1000000 ==> DigitsValue(FixedDigits(n, 6)) == n
  {
    assert Pow10(6) == 1000000;
    if n < 1000000 {
      FixedDigitsRoundTrip(n, 6);
    }
  }

  lemma FixedDigitsOne(n: nat)
    ensures FixedDigits(n, 1) == [DigitChar(n % 10)]
  {
    assert FixedDigits(n / 10, 0) == [];
  }

  lemma FixedDigitsTwo(n: nat)
    requires n < 100
    ensures FixedDigits(n, 2) == [DigitChar(n / 10), DigitChar(n % 10)]
  {
    FixedDigitsOne(n / 10);
    DivModUnique(n / 10, 10, 0, n / 10);
  }

  lemma DivHundred(n: nat)
    ensures n / 10 / 10 == n / 100
  {
  }

  lemma DivThousand(n: nat)
    ensures n / 100 / 10 == n / 1000
  {
  }

  lemma FixedDigitsFour(n: nat)
    requires n < 10000
    ensures FixedDigits(n, 4) == [DigitChar(n / 1000), DigitChar(n / 100 % 10), DigitChar(n / 10 % 10), DigitChar(n % 10)]
  {
    var low := [DigitChar(n % 10)];
    assert FixedDigits(n, 4) == FixedDigits(n / 10, 3) + low;
    assert FixedDigits(n / 10, 3) == FixedDigits(n / 10 / 10, 2) + [DigitChar(n / 10 % 10)];
    DivHundred(n);
    FixedDigitsTwo(n / 100);
    DivThousand(n);
  }

  /** Number of digits of the shortest numeral of `n`. */
  function DigitCount(n: nat): (k: nat)
    ensures k >= 1 && n < Pow10(k)
  {
    if n < 10 then 1 else 1 + DigitCount(n / 10)
  }

  /** `String(n)` for a natural number: decimal, no leading zeros. */
  function NatToString(n: nat): (s: string)
    ensures AllDigits(s) && |s| >= 1
    ensures DigitsValue(s) == n
    ensures |s| > 1 ==> s[0] != '0'
  {
    FixedDigitsRoundTrip(n, DigitCount(n));
    LeadingDigitNonZero(n);
    FixedDigits(n, DigitCount(n))
  }

  lemma {:induction false} LeadingDigitNonZero(n: nat)
    ensures DigitCount(n) > 1 ==> FixedDigits(n, DigitCount(n))[0] != '0'
  {
    if n >= 10 {
      LeadingDigitNonZero(n / 10);
      var k := DigitCount(n);
      assert FixedDigits(n, k)[0] == FixedDigits(n / 10, k - 1)[0];
      if k - 1 == 1 {
        assert 1 <= n / 10 < 10;
      }
    }
  }

  lemma NatToStringOneDigit(n: nat)
    requires n < 10
    ensures NatToString(n) == [DigitChar(n)]
  {
    FixedDigitsOne(n);
    DivModUnique(n, 10, 0, n);
  }

  lemma NatToStringTwoDigits(n: nat)
    requires 10 <= n < 100
    ensures NatToString(n) == [DigitChar(n / 10), DigitChar(n % 10)]
  {
    assert DigitCount(n / 10) == 1;
    FixedDigitsTwo(n);
  }

  /** `String(i)` for an integer, with a leading `-` when negative. */
  function IntToString(i: int): (s: string)
    ensures i >= 0 ==> AllDigits(s) && DigitsValue(s) == i && |s| >= 1 && (|s| > 1 ==> s[0] != '0')
    ensures i < 0 ==> |s| >= 2 && s[0] == '-' && AllDigits(s[1..]) && DigitsValue(s[1..]) == -i
    ensures i < 0 ==> |s| > 2 ==> s[1] != '0'
  {
    if i < 0 then "-" + NatToString(-i) else NatToString(i)
  }
}
