/**
 Decimal numbers and digit strings, as far as the printers need them: the coefficient-and-exponent
 numbers of shopspring/decimal with its rounding rules, and base-ten numerals with their value.
 */
module Decimals {
  import opened Arithmetic

  /** `value * 10^exp`. */
  datatype Decimal = Decimal(value: int, exp: int)

  function Pow10(n: nat): (p: int)
    ensures p >= 1
  {
    if n == 0 then 1 else 10 * Pow10(n - 1)
  }

  lemma {:induction false} Pow10Add(a: nat, b: nat)
    ensures Pow10(a + b) == Pow10(a) * Pow10(b)
  {
    if a > 0 {
      Pow10Add(a - 1, b);
    }
  }

  /** The numerator and denominator of `d * 10^n`. */
  function Scaled(d: Decimal, n: nat): (r: (int, int))
    ensures r.1 >= 1
  {
    if d.exp + n >= 0 then (d.value * Pow10(d.exp + n), 1) else (d.value, Pow10(-(d.exp + n)))
  }

  /** `Round(n)`: the coefficient at exponent `-n`, half away from zero. */
  function Rounded(d: Decimal, n: nat): int {
    var (a, p) := Scaled(d, n);
    if p == 1 then a else RoundDiv(a, p)
  }

  /** `RoundBank(n)`: the coefficient at exponent `-n`, half to even. */
  function RoundedBank(d: Decimal, n: nat): int {
    var (a, p) := Scaled(d, n);
    if p == 1 then a else HalfEven(a, p)
  }

  /** RoundBank gives the multiple of 10^-n nearest to the number, the even one of two equally near. */
  lemma RoundedBankIsNearest(d: Decimal, n: nat, m: int)
    ensures m == RoundedBank(d, n) <==> NearestEven(Scaled(d, n).0, Scaled(d, n).1, m)
  {
    var (a, p) := Scaled(d, n);
    if p != 1 {
      HalfEvenIsNearest(a, p);
    }
    if NearestEven(a, p, m) {
      NearestEvenUnique(a, p, m, RoundedBank(d, n));
    }
  }

  /** Rounding commutes with the sign. */
  lemma RoundedBankNegated(d: Decimal, n: nat)
    ensures RoundedBank(Decimal(-d.value, d.exp), n) == -RoundedBank(d, n)
  {
    var (a, p) := Scaled(d, n);
    if d.exp + n >= 0 {
      NegatedProduct(d.value, Pow10(d.exp + n));
    } else if p != 1 {
      HalfEvenNegated(a, p);
    }
  }

  // ---------------------------------------------------------------------------------------------
  // Numerals
  // ---------------------------------------------------------------------------------------------

  predicate IsDigit(c: char) { '0' <= c <= '9' }

  predicate IsNumeral(s: string) {
    |s| > 0 && forall i :: 0 <= i < |s| ==> IsDigit(s[i])
  }

  function DigitChar(d: int): char
    requires 0 <= d < 10
  {
    '0' + d as char
  }

  function DigitValue(c: char): int {
    c as int - '0' as int
  }

  /** The numeral of `n`, without leading zeros, as `%d` prints it. */
  function Digits(n: nat): (s: string)
    ensures IsNumeral(s)
  {
    if n < 10 then [DigitChar(n)] else Digits(n / 10) + [DigitChar(n % 10)]
  }

  /** The number a string of digits denotes. */
  function Value(s: string): int {
    if s == [] then 0 else 10 * Value(s[..|s| - 1]) + DigitValue(s[|s| - 1])
  }

  lemma ValueSnoc(s: string, c: char)
    ensures Value(s + [c]) == 10 * Value(s) + DigitValue(c)
  {
    assert (s + [c])[..|s|] == s;
  }

  /** No leading zeros. */
  lemma {:induction false} DigitsLead(n: nat)
    ensures |Digits(n)| > 1 ==> Digits(n)[0] != '0'
    ensures Digits(n)[0] == '0' ==> n == 0
  {
    if n >= 10 {
      DigitsLead(n / 10);
    }
  }

  lemma {:induction false} ValueOfDigits(n: nat)
    ensures Value(Digits(n)) == n
  {
    if n >= 10 {
      ValueOfDigits(n / 10);
      ValueSnoc(Digits(n / 10), DigitChar(n % 10));
    } else {
      ValueSnoc([], DigitChar(n));
      assert [] + [DigitChar(n)] == [DigitChar(n)];
    }
  }

  lemma {:induction false} ValueConcat(a: string, b: string)
    ensures Value(a + b) == Value(a) * Pow10(|b|) + Value(b)
  {
    if b == [] {
      assert a + b == a;
    } else {
      var front, c := b[..|b| - 1], b[|b| - 1];
      ValueConcat(a, front);
      assert a + b == (a + front) + [c];
      ValueSnoc(a + front, c);
      assert Value(a) * Pow10(|b|) == 10 * (Value(a) * Pow10(|front|));
    }
  }

  function Zeros(n: nat): (s: string)
    ensures |s| == n && forall i :: 0 <= i < n ==> s[i] == '0'
  {
    seq(n, i => '0')
  }

  lemma {:induction false} ValueZeros(n: nat)
    ensures Value(Zeros(n)) == 0
  {
    if n > 0 {
      ValueZeros(n - 1);
      assert Zeros(n)[..n - 1] == Zeros(n - 1);
    }
  }
}
