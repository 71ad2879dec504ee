/**
 The money printer of the tickets, `formatMoney` / `formatMoneyAFIP` (backend/internal/infra/pdf.go), and
 when it prints the same as `formatDecimalAFIP`.

 `IntPart` answers with a 64-bit integer.  Where the whole number does not fit, the documentation of Go's
 `big.Int` leaves the value undefined; the low 64 bits, which is what it computes, stand for it here.
 */
module PesoPrinting {
  import opened Arithmetic
  import opened Decimals
  import opened MoneyPrinting
  import opened Text
  import opened Wrappers

  const TWO63 := 0x8000_0000_0000_0000

  predicate FitsInt64(x: int) {
    -TWO63 <= x < TWO63
  }

  /** `big.Int.Int64`: the low 64 bits as a two's-complement number. */
  function Int64(x: int): (y: int)
    ensures FitsInt64(y)
    ensures FitsInt64(x) <==> y == x
    ensures (x - y) % 0x1_0000_0000_0000_0000 == 0
  {
    (x + TWO63) % (2 * TWO63) - TWO63
  }

  /** The whole part of a number, toward zero. */
  function IntegerPart(d: Decimal): int {
    var (a, p) := Scaled(d, 0);
    Truncated(a, p)
  }

  /** What is left of it beyond `whole`, in cents, cut off and without sign. */
  function CentsBeyond(d: Decimal, whole: int): nat {
    var (a, p) := Scaled(d, 0);
    Quotient(Abs((a - whole * p) * 100), p)
  }

  function CutCents(d: Decimal): nat {
    CentsBeyond(d, IntegerPart(d))
  }

  /** The amount cut off at two decimals, in cents. */
  function CutAt2(d: Decimal): int {
    Scaled(d, 2).0 / Scaled(d, 2).1
  }

  function Quotient(a: nat, p: int): nat
    requires p > 0
  {
    Division(a, p);
    a / p
  }

  /** `%d` */
  function IntString(i: int): string {
    if i < 0 then "-" + Digits(-i) else Digits(i)
  }

  /** `%02d` */
  function TwoDigits(c: int): string {
    if 0 <= c < 10 then "0" + Digits(c) else IntString(c)
  }

  function FormattedMoney(d: Decimal): string {
    var whole := Int64(IntegerPart(d));
    Grouped(IntString(whole)) + [','] + TwoDigits(Int64(CentsBeyond(d, whole)))
  }

  // ---------------------------------------------------------------------------------------------
  // Cutting off
  // ---------------------------------------------------------------------------------------------

  lemma QuotientUnique(x: nat, d: int, q: nat, r: nat)
    requires d > 0 && x == q * d + r && r < d
    ensures x / d == q
  {
    var p := x / d;
    assert x == p * d + x % d;
    assert (p + 1) * d == p * d + d && (q + 1) * d == q * d + d;
    if p < q {
      MulMono(p + 1, q, d);
    } else if q < p {
      MulMono(q + 1, p, d);
    }
  }

  /** For amounts that are not negative, the integer part is the quotient and the cents come from the remainder. */
  lemma CutParts(d: Decimal)
    requires d.value >= 0
    ensures var (a, p) := Scaled(d, 0);
            a >= 0 && IntegerPart(d) == a / p && CutCents(d) == (a % p) * 100 / p
  {
    var (a, p) := Scaled(d, 0);
    assert d.exp >= 0 ==> a == d.value * Pow10(d.exp) >= 0;
    Division(a, p);
    assert a - a / p * p == a % p;
  }

  /** Cutting to a whole and then its cents is cutting `v / p` to hundredths of `100 p`. */
  lemma CutFine(v: nat, p: int)
    requires p > 0
    ensures var i, c := v / (p * 100), (v % (p * 100)) * 100 / (p * 100);
            c < 100 && i * 100 + c == v / p
  {
    var q, r := v / (p * 100), v % (p * 100);
    Division(v, p * 100);
    HundredfoldQuotient(r, p);
    HundredfoldSplit(v, p, q, r);
  }

  /** Integer part and cents together are the amount cut off at two decimals. */
  lemma CutAtCents(d: Decimal)
    requires d.value >= 0
    ensures var (a, p) := Scaled(d, 2);
            a >= 0 && IntegerPart(d) >= 0 && 0 <= CutCents(d) < 100 && IntegerPart(d) * 100 + CutCents(d) == a / p
  {
    hide IntegerPart, CutCents, Truncated, Abs;
    CutParts(d);
    Pow10Small();
    if d.exp >= 0 {
      Pow10Add(d.exp, 2);
      WholeCents(d.value, Pow10(d.exp), Pow10(d.exp + 2));
    } else if d.exp >= -2 {
      CutCoarse(d);
    } else {
      Pow10Add(-(d.exp + 2), 2);
      CutFine(d.value, Pow10(-(d.exp + 2)));
      assert Pow10(-d.exp) == Pow10(-(d.exp + 2)) * 100;
      Division(d.value, Pow10(-d.exp));
    }
  }

  lemma CutCoarse(d: Decimal)
    requires d.value >= 0 && -2 <= d.exp < 0
    ensures var (a0, p0) := Scaled(d, 0);
            var (a, p) := Scaled(d, 2);
            && p == 1 && a >= 0 && a0 / p0 >= 0 && 0 <= (a0 % p0) * 100 / p0 < 100
            && a0 / p0 * 100 + (a0 % p0) * 100 / p0 == a
  {
    Pow10Small();
  }

  lemma WholeCents(v: nat, p: int, q: int)
    requires q == p * 100 && p > 0
    ensures v * q == v * p * 100 && v * p >= 0
  {
  }

  lemma Pow10Small()
    ensures Pow10(0) == 1 && Pow10(1) == 10 && Pow10(2) == 100
  {
    assert Pow10(2) == 10 * Pow10(1);
  }

  lemma HundredfoldQuotient(r: nat, p: int)
    requires p > 0
    ensures (r * 100) / (p * 100) == r / p
  {
    var q, s := r / p, r % p;
    assert r == q * p + s;
    assert r * 100 == q * (p * 100) + s * 100;
    QuotientUnique(r * 100, p * 100, q, s * 100);
  }

  lemma HundredfoldSplit(v: nat, p: int, q: nat, r: nat)
    requires p > 0 && v == q * (p * 100) + r && r < p * 100
    ensures r / p < 100 && v / p == q * 100 + r / p
  {
    var k, s := r / p, r % p;
    Division(r, p);
    assert q * (p * 100) == (q * 100) * p;
    assert (q * 100 + k) * p == (q * 100) * p + k * p;
    QuotientUnique(v, p, q * 100 + k, s);
    if k >= 100 {
      MulMono(100, k, p);
    }
  }

  lemma CutAtCentsAbs(d: Decimal)
    ensures IntegerPart(d) == if d.value < 0 then 0 - IntegerPart(AbsOf(d)) else IntegerPart(AbsOf(d))
    ensures CutCents(d) == CutCents(AbsOf(d))
    ensures IntegerPart(AbsOf(d)) >= 0 && CutCents(d) < 100 && IntegerPart(AbsOf(d)) * 100 + CutCents(d) == CutAt2(AbsOf(d))
  {
    CutAtCents(AbsOf(d));
    if d.value < 0 {
      NegatedParts(d);
    }
  }

  lemma NegatedParts(d: Decimal)
    requires d.value < 0
    ensures IntegerPart(d) == 0 - IntegerPart(AbsOf(d)) && CutCents(d) == CutCents(AbsOf(d))
  {
    var (a, p) := Scaled(d, 0);
    var (b, q) := Scaled(AbsOf(d), 0);
    assert q == p && b == -a && a < 0 by {
      if d.exp >= 0 {
        NegatedProduct(d.value, Pow10(d.exp));
        MulMono(1, Pow10(d.exp), -d.value);
      }
    }
    var i := IntegerPart(AbsOf(d));
    assert Truncated(a, p) == -Truncated(b, p);
    NegatedProduct(i, p);
    assert a - (-i) * p == -(b - i * p);
  }

  /** Where the whole part fits, it is printed as it is, and so are the cents. */
  lemma PrintedParts(d: Decimal)
    requires FitsInt64(IntegerPart(d))
    ensures FormattedMoney(d) == Grouped(IntString(IntegerPart(d))) + [','] + TwoDigits(CutCents(d))
  {
    CutAtCentsAbs(d);
  }

  // ---------------------------------------------------------------------------------------------
  // When printed strings are equal
  // ---------------------------------------------------------------------------------------------

  lemma TwoDigitsSpelled(r: nat)
    requires r < 100
    ensures TwoDigits(r) == [DigitChar(r / 10), DigitChar(r % 10)]
  {
    if r >= 10 {
      assert Digits(r) == Digits(r / 10) + [DigitChar(r % 10)];
    }
  }

  lemma FixedPartsTwo(m: nat)
    ensures FixedParts(m, 2) == (Digits(m / 100), TwoDigits(m % 100))
  {
    TwoDigitsSpelled(m % 100);
    var s := Digits(m);
    if m >= 100 {
      var t := Digits(m / 10);
      assert s == t + [DigitChar(m % 10)];
      assert m / 10 / 10 == m / 100 && m / 10 % 10 == m % 100 / 10 && m % 100 % 10 == m % 10;
      assert t == Digits(m / 100) + [DigitChar(m / 10 % 10)];
      assert s == Digits(m / 100) + [DigitChar(m / 10 % 10), DigitChar(m % 10)];
    } else if m >= 10 {
      assert s == [DigitChar(m / 10), DigitChar(m % 10)];
      assert Zeros(0) + s == s;
    } else {
      assert Zeros(1) + s == [DigitChar(0), DigitChar(m)];
    }
  }

  lemma TwoDigitsDiffer(c: nat, r: nat)
    requires c < 100 && r < 100 && TwoDigits(c) == TwoDigits(r)
    ensures c == r
  {
    TwoDigitsSpelled(c);
    TwoDigitsSpelled(r);
    assert TwoDigits(c)[0] == DigitChar(c / 10) && TwoDigits(c)[1] == DigitChar(c % 10);
    assert TwoDigits(r)[0] == DigitChar(r / 10) && TwoDigits(r)[1] == DigitChar(r % 10);
  }

  /** What the loop appends for the digits of a number that has a sign in front. */
  lemma PieceAfterSign(s: string, i: nat)
    requires i < |s|
    ensures Piece(['-'] + s, i + 1) == if i == 0 && |s| % 3 == 0 then ['.', s[i]] else Piece(s, i)
  {
    assert (['-'] + s)[i + 1] == s[i];
  }

  lemma {:induction false} GroupedAfterSign(s: string, i: nat)
    requires 0 < i <= |s|
    ensures GroupedUpTo(['-'] + s, i + 1) == (if |s| % 3 == 0 then ['-', '.'] else ['-']) + GroupedUpTo(s, i)
  {
    if i == 1 {
      FirstPieces(s);
    } else {
      GroupedAfterSign(s, i - 1);
      PieceAfterSign(s, i - 1);
      var sign := if |s| % 3 == 0 then ['-', '.'] else ['-'];
      var g, p := GroupedUpTo(s, i - 1), Piece(s, i - 1);
      assert (sign + g) + p == sign + (g + p);
    }
  }

  lemma FirstPiece(s: string)
    requires |s| > 0
    ensures GroupedUpTo(s, 1) == [s[0]]
  {
    assert GroupedUpTo(s, 0) == "";
    assert "" + Piece(s, 0) == Piece(s, 0);
  }

  lemma FirstPieces(s: string)
    requires |s| > 0
    ensures GroupedUpTo(s, 1) == [s[0]]
    ensures GroupedUpTo(['-'] + s, 2) == if |s| % 3 == 0 then ['-', '.', s[0]] else ['-', s[0]]
  {
    FirstPiece(s);
    FirstPiece(['-'] + s);
    PieceAfterSign(s, 0);
  }

  lemma GroupedDigitsDiffer(i: nat, k: nat)
    requires Grouped(Digits(i)) == Grouped(Digits(k))
    ensures i == k
  {
    hide Grouped, Digits;
    DigitsUngrouped(i);
    DigitsUngrouped(k);
    ValueOfDigits(i);
    ValueOfDigits(k);
  }

  lemma DigitsUngrouped(i: nat)
    ensures Without(Grouped(Digits(i)), '.') == Digits(i)
  {
    var s := Digits(i);
    NumeralHasNo(s, '.');
    GroupedWithoutDots(s, |s|);
    assert s[..|s|] == s;
  }

  lemma GroupedStartsWithDigit(i: nat)
    ensures Grouped(Digits(i)) != "" && IsDigit(Grouped(Digits(i))[0])
  {
    NumeralHasNo(Digits(i), '.');
    GroupedWithoutDots(Digits(i), |Digits(i)|);
  }

  /** How `formatMoney` groups a negative number: the sign counts as a character, so a dot follows it exactly when
      the number of digits is a multiple of three. */
  lemma NegativeMoneyMisgrouped(i: int)
    requires i < 0
    ensures Grouped(IntString(i)) == (if |Digits(-i)| % 3 == 0 then ['-', '.'] else ['-']) + Grouped(Digits(-i))
  {
    var digits := Digits(-i);
    GroupedAfterSign(digits, |digits|);
    assert "-" + digits == ['-'] + digits;
  }

  /** The whole parts are printed the same: the same number, and no dot behind the sign, nor a sign before a zero. */
  predicate WholesAgree(i: int, negative: bool, k: nat) {
    if negative then i == 0 - k && i < 0 && |Digits(k)| % 3 != 0 else i == k
  }

  lemma WholesPrintedSame(i: int, negative: bool, k: nat)
    ensures Grouped(IntString(i)) == Signed(negative, Grouped(Digits(k))) <==> WholesAgree(i, negative, k)
  {
    hide Digits, Grouped;
    GroupedStartsWithDigit(k);
    var s := Grouped(Digits(k));
    if i >= 0 {
      GroupedStartsWithDigit(i);
      if !negative && Grouped(Digits(i)) == s {
        GroupedDigitsDiffer(i, k);
      }
    } else {
      NegativeMoneyMisgrouped(i);
      GroupedStartsWithDigit(-i);
      var u := Grouped(Digits(-i));
      if negative {
        assert ("-" + s)[1..] == s && (['-'] + u)[1..] == u && (['-', '.'] + u)[1] == '.';
        if u == s {
          GroupedDigitsDiffer(-i, k);
        }
      }
    }
  }

  lemma {:induction false} GroupedHasNo(s: string, i: nat, c: char)
    requires i <= |s| && c !in s && c != '.'
    ensures c !in GroupedUpTo(s, i)
  {
    if i > 0 {
      GroupedHasNo(s, i - 1, c);
    }
  }

  lemma SplitAtComma(whole: string, cents: string)
    requires ',' !in whole && ',' !in cents
    ensures Split(whole + [','] + cents, ',') == [whole, cents]
  {
    SplitConcat(whole, cents, ',');
    SplitWhole(whole, ',');
    SplitWhole(cents, ',');
  }

  lemma NoComma(i: int)
    ensures ',' !in IntString(i) && ',' !in TwoDigits(i) && ',' !in Grouped(IntString(i))
  {
    NumeralHasNo(Digits(Abs(i)), ',');
    GroupedHasNo(IntString(i), |IntString(i)|, ',');
  }

  /** Two printed amounts are equal exactly when their whole parts and their cents are. */
  lemma PartsPrintedSame(i: int, c: int, negative: bool, k: nat, r: nat)
    ensures Grouped(IntString(i)) + [','] + TwoDigits(c) == Signed(negative, Grouped(Digits(k)) + [','] + TwoDigits(r))
       <==> WholesAgree(i, negative, k) && TwoDigits(c) == TwoDigits(r)
  {
    hide Grouped, Digits, TwoDigits, IntString, WholesAgree;
    WholesPrintedSame(i, negative, k);
    NoComma(i);
    NoComma(c);
    NoComma(k);
    NoComma(r);
    DigitsAsString(k);
    var w, v := Grouped(IntString(i)), Signed(negative, Grouped(Digits(k)));
    assert Signed(negative, Grouped(Digits(k)) + [','] + TwoDigits(r)) == v + [','] + TwoDigits(r);
    SplitAtComma(w, TwoDigits(c));
    SplitAtComma(v, TwoDigits(r));
  }

  lemma DigitsAsString(k: nat)
    ensures IntString(k) == Digits(k)
  {
  }

  // ---------------------------------------------------------------------------------------------
  // When the two printers agree
  // ---------------------------------------------------------------------------------------------

  /** `formatMoney` prints an amount that is not negative cut off at two decimals, in the shape of `formatDecimalAFIP`,
      exactly when its whole part fits 64 bits. */
  lemma MoneyPrintsCut(d: Decimal)
    requires d.value >= 0
    ensures CutAt2(d) >= 0 && (FormattedMoney(d) == UnsignedAFIP(CutAt2(d), 2) <==> FitsInt64(IntegerPart(d)))
  {
    hide Grouped, Digits, TwoDigits, IntString, FixedParts, CentsBeyond, IntegerPart, CutAt2;
    CutAtCentsAbs(d);
    assert AbsOf(d) == d;
    var cut := CutAt2(d);
    FixedPartsTwo(cut);
    NonEmptyTwoDigits(cut % 100);
    var whole := Int64(IntegerPart(d));
    PartsPrintedSame(whole, Int64(CentsBeyond(d, whole)), false, cut / 100, cut % 100);
    if FitsInt64(IntegerPart(d)) {
      PrintedParts(d);
      assert cut / 100 == IntegerPart(d) && cut % 100 == CutCents(d);
    }
  }

  lemma NonEmptyTwoDigits(r: nat)
    requires r < 100
    ensures TwoDigits(r) != ""
  {
    TwoDigitsSpelled(r);
  }

  /** Reading `formatMoneyAFIP` back gives the cut-off amount. */
  lemma MoneyRoundTrip(d: Decimal)
    requires d.value >= 0
    ensures FitsInt64(IntegerPart(d)) ==> ReadAFIP(FormattedMoney(d)) == Some((CutAt2(d), 2))
  {
    MoneyPrintsCut(d);
    ReadSigned(false, CutAt2(d), 2);
  }

  /** Cutting and banker's rounding coincide when less than half is cut off, or exactly half of an even quotient. */
  lemma CutIsHalfEven(a: nat, p: int)
    requires p > 0
    ensures HalfEven(a, p) == a / p <==> 2 * (a % p) < p || (2 * (a % p) == p && a / p % 2 == 0)
  {
    var q, r := a / p, a % p;
    Division(a, p);
    assert a == q * p + r;
    assert (q + 1) * p == q * p + p;
  }

  /** Cutting the amount off beyond the cents is what banker's rounding would do. */
  predicate CutIsRounding(d: Decimal) {
    var (a, p) := Scaled(AbsOf(d), 2);
    2 * (a % p) < p || (2 * (a % p) == p && a / p % 2 == 0)
  }

  /** No dot goes behind a sign, and no sign is lost in front of a zero. */
  predicate SignSurvives(d: Decimal) {
    d.value < 0 ==> IntegerPart(d) < 0 && |Digits(-IntegerPart(d))| % 3 != 0
  }

  lemma CutAgainstRounded(d: Decimal)
    ensures 0 <= CutAt2(AbsOf(d)) <= Coefficient(d, 2)
    ensures CutAt2(AbsOf(d)) == Coefficient(d, 2) <==> CutIsRounding(d)
  {
    var (a, p) := Scaled(AbsOf(d), 2);
    CutAtCents(AbsOf(d));
    if p != 1 {
      CutIsHalfEven(a, p);
      HalfEvenAtLeast(a, p);
    }
  }

  lemma HalfEvenAtLeast(a: nat, p: int)
    requires p > 0
    ensures HalfEven(a, p) >= a / p
  {
    var q, r := a / p, a % p;
    Division(a, p);
    assert a - q * p == r && (q + 1) * p == q * p + p;
  }

  /**
   For every amount at all the two printers print the same if and only if the whole part fits 64 bits, its sign
   survives, and cutting off beyond the cents is what banker's rounding would do.  In particular they agree on
   every amount of at most two decimals from zero to 2^63.
   */
  lemma PrintersAgree(d: Decimal)
    ensures FormattedMoney(d) == FormattedAFIP(d, 2) <==> FitsInt64(IntegerPart(d)) && SignSurvives(d) && CutIsRounding(d)
    ensures d.value >= 0 && d.exp >= -2 && FitsInt64(IntegerPart(d)) ==> FormattedMoney(d) == FormattedAFIP(d, 2)
  {
    hide Grouped, Digits, TwoDigits, IntString, FixedParts, CentsBeyond, IntegerPart, CutAt2, Coefficient, CutIsRounding;
    CutAtCentsAbs(d);
    CutAgainstRounded(d);
    var m, cut := Coefficient(d, 2), CutAt2(AbsOf(d));
    FixedPartsTwo(m);
    NonEmptyTwoDigits(m % 100);
    var whole := Int64(IntegerPart(d));
    PartsPrintedSame(whole, Int64(CentsBeyond(d, whole)), d.value < 0, m / 100, m % 100);
    TwoDecimalsCut(d);
    if FitsInt64(IntegerPart(d)) {
      PrintedParts(d);
      PartsPrintedSame(IntegerPart(d), CutCents(d), d.value < 0, m / 100, m % 100);
      if TwoDigits(CutCents(d)) == TwoDigits(m % 100) {
        TwoDigitsDiffer(CutCents(d), m % 100);
      }
    }
  }

  lemma TwoDecimalsCut(d: Decimal)
    ensures d.exp >= -2 ==> CutIsRounding(d)
  {
  }

  // ---------------------------------------------------------------------------------------------
  // The methods
  // ---------------------------------------------------------------------------------------------

  method FormatMoney(amount: Decimal) returns (s: string)
    ensures s == "$" + FormattedMoney(amount)
    ensures amount.value >= 0 && FitsInt64(IntegerPart(amount)) ==> ReadAFIP(s[1..]) == Some((CutAt2(amount), 2))
  {
    var intVal := Int64(IntegerPart(amount));
    var (a, p) := Scaled(amount, 0);
    var cents := Int64(Quotient(Abs((a - intVal * p) * 100), p));
    var b := GroupThousands(IntString(intVal));
    s := "$" + (b + [','] + TwoDigits(cents));
    assert s[1..] == FormattedMoney(amount);
    if amount.value >= 0 {
      MoneyRoundTrip(amount);
    }
  }

  method FormatMoneyAFIP(amount: Decimal) returns (s: string)
    ensures s == FormattedMoney(amount)
    ensures amount.value >= 0 && FitsInt64(IntegerPart(amount)) ==> ReadAFIP(s) == Some((CutAt2(amount), 2))
    ensures s == FormattedAFIP(amount, 2) <==> FitsInt64(IntegerPart(amount)) && SignSurvives(amount) && CutIsRounding(amount)
  {
    s := FormatMoney(amount);
    PrintersAgree(amount);
    assert s[0] == '$' && s[1..] == FormattedMoney(amount);
    if |s| > 0 && s[0] == '$' {
      s := s[1..];
    }
  }
}
