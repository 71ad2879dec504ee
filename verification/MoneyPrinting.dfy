/**
 Thousands groups, and the money printer of the invoice, `formatDecimalAFIP`
 (backend/internal/infra/factura_html.go).
 */
module MoneyPrinting {
  import opened Arithmetic
  import opened Decimals
  import opened Text
  import opened Wrappers

  // ---------------------------------------------------------------------------------------------
  // Thousands groups
  // ---------------------------------------------------------------------------------------------

  /** What both loops append at index `i`: a dot first wherever a multiple of three characters remains, but not in front. */
  function Piece(s: string, i: nat): string
    requires i < |s|
  {
    if i > 0 && (|s| - i) % 3 == 0 then ['.', s[i]] else [s[i]]
  }

  function GroupedUpTo(s: string, i: nat): string
    requires i <= |s|
  {
    if i == 0 then "" else GroupedUpTo(s, i - 1) + Piece(s, i - 1)
  }

  function Grouped(s: string): string {
    GroupedUpTo(s, |s|)
  }

  /** Thousands groups: the last three characters, the three before them, and so on. */
  function Triples(s: string): (gs: seq<string>)
    ensures |gs| >= 1
    decreases |s|
  {
    if |s| <= 3 then [s] else Triples(s[..|s| - 3]) + [s[|s| - 3..]]
  }

  function Dotted(gs: seq<string>): string
    requires |gs| >= 1
  {
    if |gs| == 1 then gs[0] else Dotted(gs[..|gs| - 1]) + "." + gs[|gs| - 1]
  }

  function Glued(gs: seq<string>): string {
    if gs == [] then "" else Glued(gs[..|gs| - 1]) + gs[|gs| - 1]
  }

  /** One group of one to three characters, then groups of exactly three, which together are `s`. */
  ghost predicate GroupsOf(gs: seq<string>, s: string) {
    && |gs| >= 1 && 1 <= |gs[0]| <= 3
    && (forall i :: 1 <= i < |gs| ==> |gs[i]| == 3)
    && Glued(gs) == s
  }

  lemma {:induction false} TriplesAreGroups(s: string)
    requires |s| > 0
    ensures GroupsOf(Triples(s), s)
    decreases |s|
  {
    if |s| > 3 {
      var front := s[..|s| - 3];
      TriplesAreGroups(front);
      var gs := Triples(front);
      assert (gs + [s[|s| - 3..]])[..|gs|] == gs;
      assert front + s[|s| - 3..] == s;
    } else {
      assert Glued([s]) == s by { assert [s][..0] == []; }
    }
  }

  /** Dropping the last three characters moves no earlier dot. */
  lemma {:induction false} GroupedPrefix(s: string, i: nat)
    requires |s| > 3 && i <= |s| - 3
    ensures GroupedUpTo(s, i) == GroupedUpTo(s[..|s| - 3], i)
  {
    if i > 0 {
      GroupedPrefix(s, i - 1);
      assert Piece(s, i - 1) == Piece(s[..|s| - 3], i - 1);
    }
  }

  lemma LastGroup(s: string)
    requires |s| > 3
    ensures Grouped(s) == Grouped(s[..|s| - 3]) + ("." + s[|s| - 3..])
  {
    var n := |s| - 3;
    GroupedPrefix(s, n);
    ThreePieces(s, n);
    assert s[n..] == [s[n], s[n + 1], s[n + 2]];
  }

  lemma ThreePieces(s: string, n: nat)
    requires n > 0 && |s| == n + 3
    ensures Grouped(s) == GroupedUpTo(s, n) + ['.', s[n], s[n + 1], s[n + 2]]
  {
    var g := GroupedUpTo(s, n);
    assert Piece(s, n) == ['.', s[n]] && Piece(s, n + 1) == [s[n + 1]] && Piece(s, n + 2) == [s[n + 2]];
    assert GroupedUpTo(s, n + 1) == g + ['.', s[n]];
    assert GroupedUpTo(s, n + 2) == g + ['.', s[n]] + [s[n + 1]];
    assert Grouped(s) == g + ['.', s[n]] + [s[n + 1]] + [s[n + 2]];
  }

  lemma {:induction false} NoGroups(s: string, i: nat)
    requires |s| <= 3 && i <= |s|
    ensures GroupedUpTo(s, i) == s[..i]
  {
    if i > 0 {
      NoGroups(s, i - 1);
    }
  }

  lemma {:induction false} GroupedIsDotted(s: string)
    requires |s| > 0
    ensures Grouped(s) == Dotted(Triples(s))
    decreases |s|
  {
    if |s| > 3 {
      LastGroup(s);
      GroupedIsDotted(s[..|s| - 3]);
      DottedSnoc(Triples(s[..|s| - 3]), s[|s| - 3..]);
    } else {
      NoGroups(s, |s|);
    }
  }

  lemma DottedSnoc(gs: seq<string>, last: string)
    requires |gs| >= 1
    ensures Dotted(gs + [last]) == Dotted(gs) + ("." + last)
  {
    assert (gs + [last])[..|gs|] == gs;
  }

  lemma {:induction false} GroupedWithoutDots(s: string, i: nat)
    requires i <= |s| && '.' !in s
    ensures Without(GroupedUpTo(s, i), '.') == s[..i]
    ensures i > 0 ==> GroupedUpTo(s, i) != "" && GroupedUpTo(s, i)[0] == s[0]
  {
    if i > 0 {
      GroupedWithoutDots(s, i - 1);
      WithoutConcat(GroupedUpTo(s, i - 1), Piece(s, i - 1), '.');
      WithoutNone([s[i - 1]], '.');
      assert ['.', s[i - 1]][1..] == [s[i - 1]];
    }
  }

  /** The loop of both printers. */
  method GroupThousands(s: string) returns (grouped: string)
    ensures grouped == Grouped(s)
    ensures s != "" ==> grouped == Dotted(Triples(s))
  {
    if s != "" {
      GroupedIsDotted(s);
    }
    grouped := "";
    for idx := 0 to |s|
      invariant grouped == GroupedUpTo(s, idx)
    {
      if idx > 0 && (|s| - idx) % 3 == 0 {
        grouped := grouped + ".";
      }
      grouped := grouped + [s[idx]];
    }
  }

  // ---------------------------------------------------------------------------------------------
  // formatDecimalAFIP
  // ---------------------------------------------------------------------------------------------

  /** `StringFixed(n)` of a coefficient at exponent `-n`. */
  function FixedString(m: nat, n: nat): string {
    var s := Digits(m);
    if n == 0 then s
    else if |s| > n then s[..|s| - n] + "." + s[|s| - n..]
    else "0" + "." + (Zeros(n - |s|) + s)
  }

  function AbsOf(d: Decimal): Decimal {
    Decimal(Abs(d.value), d.exp)
  }

  lemma RoundedBankNat(d: Decimal, n: nat)
    requires d.value >= 0
    ensures RoundedBank(d, n) >= 0
  {
    var (a, p) := Scaled(d, n);
    assert d.exp + n >= 0 ==> a == d.value * Pow10(d.exp + n) >= 0;
    if p != 1 {
      RoundDivBounds(a, p);
    }
  }

  function Coefficient(d: Decimal, n: nat): nat {
    RoundedBankNat(AbsOf(d), n);
    RoundedBank(AbsOf(d), n)
  }

  /** The integer and fraction digits of a coefficient at exponent `-n`. */
  function FixedParts(m: nat, n: nat): (string, string) {
    var s := Digits(m);
    if |s| > n then (s[..|s| - n], s[|s| - n..]) else ("0", Zeros(n - |s|) + s)
  }

  function Body(i: string, f: string): string {
    if f == "" then Grouped(i) else Grouped(i) + [','] + f
  }

  function UnsignedAFIP(m: nat, n: nat): string {
    var (i, f) := FixedParts(m, n);
    Body(i, f)
  }

  function Signed(negative: bool, s: string): string {
    if negative then "-" + s else s
  }

  function SignedAFIP(negative: bool, m: nat, n: nat): string {
    Signed(negative, UnsignedAFIP(m, n))
  }

  function FormattedAFIP(d: Decimal, n: nat): string {
    SignedAFIP(d.value < 0, Coefficient(d, n), n)
  }

  lemma PaddedValue(s: string, k: nat)
    ensures Value("0" + (Zeros(k) + s)) == Value(s)
  {
    assert "0" + (Zeros(k) + s) == ("0" + Zeros(k)) + s;
    assert "0" + Zeros(k) == Zeros(k + 1);
    ValueZeros(k + 1);
    ValueConcat(Zeros(k + 1), s);
  }

  lemma FixedPartsDenote(m: nat, n: nat)
    ensures var (i, f) := FixedParts(m, n);
            IsNumeral(i) && |f| == n && (n > 0 ==> IsNumeral(f)) && Value(i + f) == m
  {
    var (i, f) := FixedParts(m, n);
    var s := Digits(m);
    ValueOfDigits(m);
    if |s| > n {
      assert i + f == s;
    } else {
      PaddedValue(s, n - |s|);
    }
  }

  lemma SplitFixed(m: nat, n: nat)
    ensures var (i, f) := FixedParts(m, n);
            Split(FixedString(m, n), '.') == if n == 0 then [i] else [i, f]
  {
    var (i, f) := FixedParts(m, n);
    FixedPartsDenote(m, n);
    SplitWhole(i, '.');
    SplitWhole(f, '.');
    if n == 0 {
      assert i == Digits(m);
    } else {
      SplitConcat(i, f, '.');
      assert FixedString(m, n) == i + ['.'] + f;
    }
  }

  /** Dots dropped, the comma is the decimal point: the coefficient and how many decimals it has. */
  function ReadUnsigned(s: string): Option<(int, nat)> {
    var parts := Split(Without(s, '.'), ',');
    if |parts| == 1 && IsNumeral(parts[0]) then Some((Value(parts[0]), 0))
    else if |parts| == 2 && IsNumeral(parts[0]) && IsNumeral(parts[1]) then Some((Value(parts[0] + parts[1]), |parts[1]|))
    else None
  }

  function ReadAFIP(s: string): Option<(int, nat)> {
    if s != [] && s[0] == '-' then
      var r := ReadUnsigned(s[1..]);
      if r.None? then None else Some((-r.value.0, r.value.1))
    else ReadUnsigned(s)
  }

  lemma NumeralHasNo(s: string, c: char)
    requires IsNumeral(s) && !IsDigit(c)
    ensures c !in s
  {
  }

  lemma BodyWithoutDots(i: string, f: string)
    requires IsNumeral(i) && (f != "" ==> IsNumeral(f))
    ensures Without(Body(i, f), '.') == if f == "" then i else i + [','] + f
  {
    NumeralHasNo(i, '.');
    GroupedWithoutDots(i, |i|);
    if f != "" {
      NumeralHasNo(f, '.');
      WithoutConcat(Grouped(i), [','], '.');
      WithoutConcat(Grouped(i) + [','], f, '.');
      WithoutNone(f, '.');
      WithoutNone([','], '.');
    }
  }

  lemma ReadBack(i: string, f: string)
    requires IsNumeral(i) && (f != "" ==> IsNumeral(f))
    ensures ReadUnsigned(Body(i, f)) == Some((Value(i + f), |f|))
  {
    BodyWithoutDots(i, f);
    NumeralHasNo(i, ',');
    SplitWhole(i, ',');
    if f != "" {
      NumeralHasNo(f, ',');
      SplitWhole(f, ',');
      SplitConcat(i, f, ',');
    } else {
      assert i + f == i;
    }
  }

  lemma BodyStartsWithDigit(i: string, f: string)
    requires IsNumeral(i)
    ensures Body(i, f) != "" && Body(i, f)[0] == i[0]
  {
    NumeralHasNo(i, '.');
    GroupedWithoutDots(i, |i|);
  }

  lemma ReadUnsignedBack(m: nat, n: nat)
    ensures var s := UnsignedAFIP(m, n);
            s != "" && IsDigit(s[0]) && ReadUnsigned(s) == Some((m, n))
  {
    var (i, f) := FixedParts(m, n);
    FixedPartsDenote(m, n);
    ReadBack(i, f);
    BodyStartsWithDigit(i, f);
  }

  lemma ReadWithSign(negative: bool, s: string, v: int, n: nat)
    requires s != "" && IsDigit(s[0]) && ReadUnsigned(s) == Some((v, n))
    ensures ReadAFIP(Signed(negative, s)) == Some((if negative then -v else v, n))
  {
    assert ("-" + s)[1..] == s;
  }

  lemma ReadSigned(negative: bool, m: nat, n: nat)
    ensures ReadAFIP(SignedAFIP(negative, m, n)) == Some((if negative then 0 - m else m, n))
  {
    ReadUnsignedBack(m, n);
    ReadWithSign(negative, UnsignedAFIP(m, n), m, n);
  }

  lemma CoefficientSign(d: Decimal, n: nat)
    ensures RoundedBank(d, n) == if d.value < 0 then 0 - Coefficient(d, n) else Coefficient(d, n)
  {
    if d.value < 0 {
      RoundedBankNegated(AbsOf(d), n);
    }
  }

  /** Reading back what `formatDecimalAFIP` prints gives exactly the banker's rounding of the number. */
  lemma AFIPRoundTrip(d: Decimal, n: nat)
    ensures ReadAFIP(FormattedAFIP(d, n)) == Some((RoundedBank(d, n), n))
  {
    ReadSigned(d.value < 0, Coefficient(d, n), n);
    CoefficientSign(d, n);
  }

  /** The integer part it prints is one group of one to three digits, then groups of exactly three, without leading zeros. */
  lemma AFIPGroups(d: Decimal, n: nat)
    ensures exists gs: seq<string>, i: string, f: string ::
              && GroupsOf(gs, i) && IsNumeral(i) && (|i| > 1 ==> i[0] != '0')
              && PrintsAs(FormattedAFIP(d, n), d.value < 0, gs, f) && |f| == n
  {
    var m := Coefficient(d, n);
    var (i, f) := FixedParts(m, n);
    FixedPartsDenote(m, n);
    DigitsLead(m);
    GroupedIsDotted(i);
    TriplesAreGroups(i);
    assert PrintsAs(FormattedAFIP(d, n), d.value < 0, Triples(i), f);
  }

  ghost predicate PrintsAs(s: string, negative: bool, gs: seq<string>, f: string) {
    |gs| >= 1 && s == Signed(negative, if f == "" then Dotted(gs) else Dotted(gs) + [','] + f)
  }

  method FormatDecimalAFIP(value: Decimal, decimals: nat) returns (formatted: string)
    ensures formatted == FormattedAFIP(value, decimals)
    ensures ReadAFIP(formatted) == Some((RoundedBank(value, decimals), decimals))
  {
    var negative := value.value < 0;
    RoundedBankNat(AbsOf(value), decimals);
    var abs := RoundedBank(Decimal(if negative then -value.value else value.value, value.exp), decimals);
    var parts := Split(FixedString(abs, decimals), '.');
    SplitFixed(abs, decimals);
    FixedPartsDenote(abs, decimals);
    var intPart := parts[0];
    var fracPart := "";
    if |parts| > 1 {
      fracPart := parts[1];
    }
    formatted := GroupThousands(intPart);
    if decimals > 0 {
      formatted := formatted + "," + fracPart;
    }
    if negative {
      formatted := "-" + formatted;
    }
    AFIPRoundTrip(value, decimals);
  }
}
