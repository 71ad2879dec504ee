/** Integer facts the rest of the project leans on, and the decimal rounding rules of the program. */
module Arithmetic {

  const E12 := 1_000_000_000_000
  const E14 := 100_000_000_000_000
  const E16 := 10_000_000_000_000_000

  function Abs(x: int): int {
    if x < 0 then -x else x
  }

  function Min(a: int, b: int): int {
    if a <= b then a else b
  }

  function Max(a: int, b: int): int {
    if a >= b then a else b
  }

  lemma MulMono(a: int, b: int, c: int)
    requires a <= b && 0 <= c
    ensures a * c <= b * c
  {
  }

  lemma QuotientAtLeast(x: nat, d: int, n: int)
    requires d > 0 && n * d <= x
    ensures n <= x / d
  {
    var q := x / d;
    assert x == q * d + x % d;
    if n > q {
      MulMono(q + 1, n, d);
    }
  }

  lemma ExactQuotient(q: nat, w: nat)
    requires w > 0
    ensures (q * w) / w == q
  {
    var x := q * w;
    var p := x / w;
    QuotientAtLeast(x, w, q);
    assert x == p * w + x % w;
    if p > q {
      MulMono(q + 1, p, w);
    }
  }

  // ---------------------------------------------------------------------------------------------
  // Division and rounding as the decimal library (shopspring/decimal) does them
  // ---------------------------------------------------------------------------------------------

  /** Quotient truncated toward zero, as Go's `/` and `big.Int.QuoRem`. */
  function Truncated(a: int, b: int): int
    requires b != 0
  {
    var q := Abs(a) / Abs(b);
    if (a < 0) == (b < 0) then q else -q
  }

  /** `DivRound`: the truncated quotient, moved one away from zero when twice the remainder reaches the divisor. */
  function RoundDiv(a: int, b: int): int
    requires b != 0
  {
    var q := Truncated(a, b);
    var r := a - q * b;
    if 2 * Abs(r) < Abs(b) then q
    else if (a < 0) != (b < 0) then q - 1
    else q + 1
  }

  lemma TruncatedRemainder(a: int, b: int)
    requires b != 0
    ensures Abs(a - Truncated(a, b) * b) == Abs(a) % Abs(b)
    ensures Abs(Truncated(a, b)) == Abs(a) / Abs(b)
  {
    Division(Abs(a), Abs(b));
    SignedRemainder(a, b, Abs(a) / Abs(b), Abs(a) % Abs(b));
  }

  lemma Division(x: nat, d: nat)
    requires d > 0
    ensures x == (x / d) * d + x % d && 0 <= x % d < d && x / d >= 0
  {
  }

  lemma SignedRemainder(a: int, b: int, q: int, r: int)
    requires b != 0 && q >= 0 && r >= 0 && Abs(a) == q * Abs(b) + r
    ensures var t := if (a < 0) == (b < 0) then q else -q;
            Abs(a - t * b) == r && Abs(t) == q
  {
    NegatedProduct(q, b);
    if b < 0 {
      assert q * Abs(b) == -(q * b);
    }
  }

  lemma NegatedProduct(x: int, y: int)
    ensures (-x) * y == -(x * y) && x * (-y) == -(x * y)
  {
  }

  /** Rounding is symmetric in the sign. */
  lemma RoundDivAbs(a: int, b: int)
    requires b != 0
    ensures Abs(RoundDiv(a, b)) == RoundDiv(Abs(a), Abs(b))
  {
    TruncatedRemainder(a, b);
    TruncatedRemainder(Abs(a), Abs(b));
  }

  lemma RoundDivNegated(a: int, b: int)
    requires b > 0
    ensures RoundDiv(-a, b) == -RoundDiv(a, b)
  {
    var q := Truncated(a, b);
    assert Truncated(-a, b) == -q;
    NegatedProduct(q, b);
  }

  lemma RoundDivSigns(a: int, b: int)
    requires b != 0
    ensures RoundDiv(-a, b) == -RoundDiv(a, b) && RoundDiv(a, -b) == -RoundDiv(a, b)
  {
    if b > 0 {
      RoundDivNegated(a, b);
      RoundDivFlipped(a, b);
    } else {
      RoundDivNegated(a, -b);
      RoundDivFlipped(a, -b);
      RoundDivFlipped(-a, -b);
    }
  }

  lemma TruncatedFlipped(a: int, b: int)
    requires b > 0
    ensures Truncated(a, -b) == -Truncated(a, b)
  {
    if a == 0 {
      Division(0, b);
      ExactQuotient(0, b);
    }
  }

  lemma RoundDivFlipped(a: int, b: int)
    requires b > 0
    ensures RoundDiv(a, -b) == -RoundDiv(a, b)
  {
    hide Truncated;
    TruncatedFlipped(a, b);
    var q := Truncated(a, b);
    NegatedProduct(q, b);
    assert (-q) * (-b) == q * b;
    if a == 0 {
      assert Truncated(0, b) == 0 by { TruncatedZero(b); }
    }
  }

  lemma TruncatedZero(b: int)
    requires b > 0
    ensures Truncated(0, b) == 0
  {
    ExactQuotient(0, b);
  }

  /** The rounded quotient is within half a divisor, and half itself goes up. */
  lemma RoundDivBounds(a: nat, b: int)
    requires b > 0
    ensures var m := RoundDiv(a, b);
            0 <= m && 2 * (m * b) - b <= 2 * a < 2 * (m * b) + b
  {
    var q, r := a / b, a % b;
    assert a == q * b + r;
    assert (q + 1) * b == q * b + b;
  }

  /** Which way it goes is decided by the remainder. */
  lemma RoundDivSide(a: nat, b: int)
    requires b > 0
    ensures RoundDiv(a, b) * b < a <==> 0 < 2 * (a % b) < b
    ensures RoundDiv(a, b) * b > a <==> 2 * (a % b) >= b
  {
    var q, r := a / b, a % b;
    Division(a, b);
    assert a - q * b == r && (q + 1) * b == q * b + b;
  }

  lemma NegatedRemainder(x: nat, d: int)
    requires d > 0
    ensures (0 - x) % d == if x % d == 0 then 0 else d - x % d
  {
    var y: int := 0 - x;
    var q: int, r: int, q': int, r': int := x / d, x % d, y / d, y % d;
    var k: int := q + q';
    assert k * d == q * d + q' * d;
    assert k * d + r + r' == 0;
    if k >= 0 {
      MulMono(0, k, d);
    } else if k <= -2 {
      MulMono(k, -2, d);
    }
  }

  /** Half is rounded away from zero: `a/b` rounds below `n` exactly when `a/b < n - 1/2`. */
  lemma RoundsBelow(a: nat, b: int, n: int)
    requires b > 0
    ensures RoundDiv(a, b) < n <==> 2 * a < (2 * n - 1) * b
  {
    var m := RoundDiv(a, b);
    RoundDivBounds(a, b);
    assert (2 * m - 1) * b == 2 * (m * b) - b && (2 * m + 1) * b == 2 * (m * b) + b;
    if m < n {
      MulMono(2 * m + 1, 2 * n - 1, b);
    } else {
      MulMono(2 * n - 1, 2 * m - 1, b);
    }
  }

  /** Round half to even: as `RoundDiv`, but an exact half whose rounding came out odd goes back toward zero. */
  function HalfEven(a: int, p: int): int
    requires p > 0
  {
    var m := RoundDiv(a, p);
    if 2 * Abs(a - m * p) == p && m % 2 != 0 then (if m < 0 then m + 1 else m - 1) else m
  }

  /** `m` is the integer nearest to `a/p`, the even one of two equally near. */
  ghost predicate NearestEven(a: int, p: int, m: int) {
    2 * Abs(a - m * p) <= p && (2 * Abs(a - m * p) == p ==> m % 2 == 0)
  }

  lemma HalfEvenNegated(a: int, p: int)
    requires p > 0
    ensures HalfEven(-a, p) == -HalfEven(a, p)
  {
    RoundDivNegated(a, p);
    NegatedProduct(RoundDiv(a, p), p);
  }

  lemma HalfEvenOfNat(a: nat, p: int)
    requires p > 0
    ensures NearestEven(a, p, HalfEven(a, p))
  {
    var m := RoundDiv(a, p);
    var x := m * p;
    RoundDivBounds(a, p);
    assert (m - 1) * p == x - p;
  }

  lemma HalfEvenIsNearest(a: int, p: int)
    requires p > 0
    ensures NearestEven(a, p, HalfEven(a, p))
  {
    if a < 0 {
      HalfEvenOfNat(-a, p);
      HalfEvenNegated(-a, p);
      NegatedProduct(HalfEven(-a, p), p);
    } else {
      HalfEvenOfNat(a, p);
    }
  }

  lemma NearestEvenOrdered(a: int, p: int, m: int, n: int)
    requires p > 0 && NearestEven(a, p, m) && NearestEven(a, p, n)
    ensures n <= m
  {
    var d, x, y := n - m, m * p, n * p;
    assert y - x == d * p <= p;
    assert d == 1 ==> d * p == p;
    if d >= 2 {
      MulMono(2, d, p);
    }
  }

  /** Only one integer is nearest with ties to even. */
  lemma NearestEvenUnique(a: int, p: int, m: int, n: int)
    requires p > 0 && NearestEven(a, p, m) && NearestEven(a, p, n)
    ensures m == n
  {
    NearestEvenOrdered(a, p, m, n);
    NearestEvenOrdered(a, p, n, m);
  }

  /** Dividing an exact multiple loses nothing. */
  lemma RoundDivExact(q: int, b: int)
    requires b > 0
    ensures RoundDiv(q * b, b) == q
  {
    var a := Abs(q) * b;
    ExactQuotient(Abs(q), b);
    assert Abs(q * b) == a by { assert (-q) * b == -(q * b); }
    assert Truncated(q * b, b) == q;
  }
}
