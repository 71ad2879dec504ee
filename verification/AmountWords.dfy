/**
 Amounts in words (`amountToWords`, backend/internal/infra/pdf.go), and a reader that inverts them.

 The reader is strict: it knows exactly one phrase for each whole number (`OnePhrase`), so that reading back
 leaves the printer no choice of words.
 */
module AmountWords {
  import opened Arithmetic
  import opened Decimals
  import opened MoneyPrinting
  import opened PesoPrinting
  import opened Text
  import opened Wrappers

  const UNITS: seq<string> := [
    "", "uno", "dos", "tres", "cuatro", "cinco", "seis", "siete", "ocho", "nueve",
    "diez", "once", "doce", "trece", "catorce", "quince", "dieciséis", "diecisiete", "dieciocho", "diecinueve",
    "veinte", "veintiuno", "veintidós", "veintitrés", "veinticuatro", "veinticinco", "veintiséis", "veintisiete", "veintiocho", "veintinueve"]

  const TENS: seq<string> := ["", "", "veinte", "treinta", "cuarenta", "cincuenta", "sesenta", "setenta", "ochenta", "noventa"]

  const HUNDREDS: seq<string> := [
    "", "ciento", "doscientos", "trescientos", "cuatrocientos", "quinientos", "seiscientos", "setecientos", "ochocientos", "novecientos"]

  // ---------------------------------------------------------------------------------------------
  // The reader
  // ---------------------------------------------------------------------------------------------

  function IndexOf(table: seq<string>, w: string, from: nat): (i: nat)
    requires from <= |table|
    ensures from <= i <= |table|
    ensures i < |table| ==> table[i] == w
    ensures forall j :: from <= j < i ==> table[j] != w
    decreases |table| - from
  {
    if from == |table| || table[from] == w then from else IndexOf(table, w, from + 1)
  }

  function UnitAt(w: string): Option<int> {
    var i := IndexOf(UNITS, w, 1);
    if i < |UNITS| then Some(i) else None
  }

  function TenAt(w: string): Option<int> {
    var i := IndexOf(TENS, w, 3);
    if i < |TENS| then Some(i) else None
  }

  function HundredAt(w: string): Option<int> {
    var i := IndexOf(HUNDREDS, w, 1);
    if i < |HUNDREDS| then Some(i) else None
  }

  /** A numeral without leading zeros. */
  predicate Canonical(w: string) {
    IsNumeral(w) && (|w| > 1 ==> w[0] != '0')
  }

  /** "once", "treinta", "treinta y uno" */
  function ReadBelowHundred(ws: seq<string>): Option<int> {
    if |ws| == 1 then
      if UnitAt(ws[0]).Some? then UnitAt(ws[0])
      else if TenAt(ws[0]).Some? then Some(10 * TenAt(ws[0]).value)
      else None
    else if |ws| == 3 && ws[1] == "y" && TenAt(ws[0]).Some? && UnitAt(ws[2]).Some? && UnitAt(ws[2]).value < 10
    then Some(10 * TenAt(ws[0]).value + UnitAt(ws[2]).value)
    else None
  }

  /** "cien" alone, or a word for the hundreds and then what is below a hundred. */
  function ReadBelowThousand(ws: seq<string>): Option<int> {
    if ws == ["cien"] then Some(100)
    else if |ws| > 0 && HundredAt(ws[0]).Some? then
      var h := HundredAt(ws[0]).value;
      if |ws| == 1 then (if h == 1 then None else Some(100 * h))
      else
        var rest := ReadBelowHundred(ws[1..]);
        if rest.Some? then Some(100 * h + rest.value) else None
    else ReadBelowHundred(ws)
  }

  /** Around "mil": a word below thirty, a numeral from there to 999. */
  function ReadSmall(w: string): Option<int> {
    if UnitAt(w).Some? then UnitAt(w)
    else if Canonical(w) && 30 <= Value(w) < 1000 then Some(Value(w))
    else None
  }

  function ReadRest(ws: seq<string>): Option<int> {
    if ws == [] then Some(0) else if |ws| == 1 then ReadSmall(ws[0]) else None
  }

  function Plus(thousands: int, rest: Option<int>): Option<int> {
    if rest.Some? then Some(1000 * thousands + rest.value) else None
  }

  /** A whole number: "cero", words below a thousand, "mil" with what goes around it, and numerals from a million on. */
  function ReadWhole(ws: seq<string>): Option<int> {
    if ws == ["cero"] then Some(0)
    else if |ws| > 0 && ws[0] == "mil" then Plus(1, ReadRest(ws[1..]))
    else if |ws| > 1 && ws[1] == "mil" then
      var t := ReadSmall(ws[0]);
      if t.Some? && t.value > 1 then Plus(t.value, ReadRest(ws[2..])) else None
    else if |ws| == 1 && Canonical(ws[0]) then (if Value(ws[0]) >= 1_000_000 then Some(Value(ws[0])) else None)
    else ReadBelowThousand(ws)
  }

  function Lower(s: string): string {
    if s != [] && 'A' <= s[0] <= 'Z' then [s[0] - 'A' + 'a'] + s[1..] else s
  }

  /** The total in cents of "<words> con <cents>/100", which starts with a capital or a digit and has two digits of cents, or 100 of them. */
  function ReadWords(s: string): Option<int> {
    var ts := Split(Lower(s), ' ');
    if s == [] || 'a' <= s[0] <= 'z' || |ts| < 3 || ts[|ts| - 2] != "con" then None
    else
      var fraction := Split(ts[|ts| - 1], '/');
      var whole := ReadWhole(ts[..|ts| - 2]);
      if |fraction| == 2 && IsNumeral(fraction[0]) && (|fraction[0]| == 2 || fraction[0] == "100") && fraction[1] == "100" && whole.Some?
      then Some(100 * whole.value + Value(fraction[0]))
      else None
  }

  // ---------------------------------------------------------------------------------------------
  // Words
  // ---------------------------------------------------------------------------------------------

  /** A word the tables may hold: lower-case initial, no spaces, and none of those the reader treats apart. */
  ghost predicate IsWord(w: string) {
    && w != "" && 'a' <= w[0] <= 'z' && ' ' !in w
    && w != "y" && w != "mil" && w != "con" && w != "cero" && w != "cien"
  }

  lemma UnitIsWord(i: nat)
    requires 1 <= i < 30
    ensures IsWord(UNITS[i])
  {
  }

  lemma UnitsDiffer(i: nat, j: nat)
    requires 1 <= i < j < 30
    ensures UNITS[i] != UNITS[j]
  {
  }

  lemma TenIsWord(t: nat)
    requires 3 <= t < 10
    ensures IsWord(TENS[t])
  {
  }

  lemma TensDiffer(t: nat, i: nat)
    requires 3 <= t < 10
    ensures 1 <= i < 30 ==> UNITS[i] != TENS[t]
    ensures 3 <= i < t ==> TENS[i] != TENS[t]
  {
  }

  lemma HundredIsWord(h: nat)
    requires 1 <= h < 10
    ensures IsWord(HUNDREDS[h])
  {
  }

  lemma HundredsDiffer(h: nat, i: nat)
    requires 1 <= h < 10
    ensures 1 <= i < 30 ==> UNITS[i] != HUNDREDS[h]
    ensures 3 <= i < 10 ==> TENS[i] != HUNDREDS[h]
    ensures 1 <= i < h ==> HUNDREDS[i] != HUNDREDS[h]
  {
  }

  /** The words of the tables, number by number. */
  lemma FirstUnits()
    ensures UNITS[1] == "uno" && UNITS[2] == "dos" && UNITS[3] == "tres" && UNITS[4] == "cuatro" && UNITS[5] == "cinco"
    ensures UNITS[6] == "seis" && UNITS[7] == "siete" && UNITS[8] == "ocho" && UNITS[9] == "nueve" && UNITS[10] == "diez"
  {
  }

  lemma MiddleUnits()
    ensures UNITS[11] == "once" && UNITS[12] == "doce" && UNITS[13] == "trece" && UNITS[14] == "catorce" && UNITS[15] == "quince"
    ensures UNITS[16] == "dieciséis" && UNITS[17] == "diecisiete" && UNITS[18] == "dieciocho" && UNITS[19] == "diecinueve" && UNITS[20] == "veinte"
  {
  }

  lemma LastUnits()
    ensures UNITS[21] == "veintiuno" && UNITS[22] == "veintidós" && UNITS[23] == "veintitrés" && UNITS[24] == "veinticuatro" && UNITS[25] == "veinticinco"
    ensures UNITS[26] == "veintiséis" && UNITS[27] == "veintisiete" && UNITS[28] == "veintiocho" && UNITS[29] == "veintinueve"
  {
  }

  lemma TensSpelled()
    ensures TENS[3] == "treinta" && TENS[4] == "cuarenta" && TENS[5] == "cincuenta" && TENS[6] == "sesenta"
    ensures TENS[7] == "setenta" && TENS[8] == "ochenta" && TENS[9] == "noventa"
  {
  }

  lemma HundredsSpelled()
    ensures HUNDREDS[1] == "ciento" && HUNDREDS[2] == "doscientos" && HUNDREDS[3] == "trescientos"
    ensures HUNDREDS[4] == "cuatrocientos" && HUNDREDS[5] == "quinientos" && HUNDREDS[6] == "seiscientos"
    ensures HUNDREDS[7] == "setecientos" && HUNDREDS[8] == "ochocientos" && HUNDREDS[9] == "novecientos"
  {
  }

  lemma UnitIs(i: nat)
    requires 1 <= i < 30
    ensures var w := UNITS[i]; IsWord(w) && UnitAt(w) == Some(i) && HundredAt(w) == None && !IsNumeral(w)
  {
    hide IndexOf;
    UnitIsWord(i);
    var w := UNITS[i];
    var u, h := IndexOf(UNITS, w, 1), IndexOf(HUNDREDS, w, 1);
    if u < i {
      UnitsDiffer(u, i);
    }
    if h < 10 {
      HundredsDiffer(h, i);
    }
    assert !IsDigit(w[0]);
  }

  lemma TenIs(t: nat)
    requires 3 <= t < 10
    ensures var w := TENS[t]; IsWord(w) && UnitAt(w) == None && TenAt(w) == Some(t) && HundredAt(w) == None && !IsNumeral(w)
  {
    hide IndexOf;
    TenIsWord(t);
    var w := TENS[t];
    var u, i, h := IndexOf(UNITS, w, 1), IndexOf(TENS, w, 3), IndexOf(HUNDREDS, w, 1);
    TensDiffer(t, u);
    TensDiffer(t, i);
    if h < 10 {
      HundredsDiffer(h, t);
    }
    assert !IsDigit(w[0]);
  }

  lemma HundredIs(h: nat)
    requires 1 <= h < 10
    ensures var w := HUNDREDS[h]; IsWord(w) && HundredAt(w) == Some(h) && !IsNumeral(w)
  {
    hide IndexOf;
    HundredIsWord(h);
    var w := HUNDREDS[h];
    HundredsDiffer(h, IndexOf(HUNDREDS, w, 1));
    assert !IsDigit(w[0]);
  }

  lemma NumeralIsNoUnit(w: string)
    requires IsNumeral(w)
    ensures UnitAt(w) == None
  {
    hide IndexOf;
    var u := IndexOf(UNITS, w, 1);
    if u < 30 {
      UnitIsWord(u);
    }
  }

  lemma {:induction false} ValuePositive(w: string)
    requires IsNumeral(w) && w[0] != '0'
    ensures Value(w) >= 1
  {
    if |w| > 1 {
      ValuePositive(w[..|w| - 1]);
    } else {
      assert w[..0] == [];
    }
  }

  /** A canonical numeral is the one that `%d` prints. */
  lemma {:induction false} CanonicalIsDigits(w: string)
    requires Canonical(w)
    ensures Value(w) >= 0 && w == Digits(Value(w))
  {
    var front, c := w[..|w| - 1], w[|w| - 1];
    assert w == front + [c];
    if |w| == 1 {
      assert Value(front) == 0;
      assert Value(w) == DigitValue(c);
    } else {
      CanonicalIsDigits(front);
      ValuePositive(front);
      assert Value(w) / 10 == Value(front) && Value(w) % 10 == DigitValue(c);
    }
  }

  lemma DigitsAreCanonical(n: nat)
    ensures Canonical(Digits(n)) && Value(Digits(n)) == n && ' ' !in Digits(n)
  {
    DigitsLead(n);
    ValueOfDigits(n);
  }

  // ---------------------------------------------------------------------------------------------
  // Phrases
  // ---------------------------------------------------------------------------------------------

  function PhraseBelowHundred(n: int): (ws: seq<string>)
    requires 1 <= n < 100
    ensures |ws| >= 1
  {
    if n < 30 then [UNITS[n]] else if n % 10 == 0 then [TENS[n / 10]] else [TENS[n / 10], "y", UNITS[n % 10]]
  }

  function PhraseBelowThousand(n: int): (ws: seq<string>)
    requires 1 <= n < 1000
    ensures |ws| >= 1
  {
    if n == 100 then ["cien"]
    else if n < 100 then PhraseBelowHundred(n)
    else [HUNDREDS[n / 100]] + if n % 100 == 0 then [] else PhraseBelowHundred(n % 100)
  }

  function Small(n: int): string
    requires 1 <= n < 1000
  {
    if n < 30 then UNITS[n] else Digits(n)
  }

  /** The words for a whole number. */
  function Phrase(n: int): seq<string>
    requires n >= 0
  {
    if n == 0 then ["cero"]
    else if n < 1000 then PhraseBelowThousand(n)
    else if n < 1_000_000 then
      (if n / 1000 == 1 then ["mil"] else [Small(n / 1000), "mil"]) + if n % 1000 == 0 then [] else [Small(n % 1000)]
    else [Digits(n)]
  }

  lemma BelowHundredReads(n: int)
    requires 1 <= n < 100
    ensures ReadBelowHundred(PhraseBelowHundred(n)) == Some(n)
    ensures HundredAt(PhraseBelowHundred(n)[0]) == None && IsWord(PhraseBelowHundred(n)[0]) && !IsNumeral(PhraseBelowHundred(n)[0])
  {
    hide UnitAt, TenAt, HundredAt, IsWord, IsNumeral, UNITS, TENS;
    if n < 30 {
      UnitIs(n);
    } else {
      TenIs(n / 10);
      if n % 10 != 0 {
        UnitIs(n % 10);
      }
    }
  }

  lemma BelowThousandReads(n: int)
    requires 1 <= n < 1000
    ensures var ws := PhraseBelowThousand(n);
            && ReadBelowThousand(ws) == Some(n)
            && ws[0] != "cero" && ws[0] != "mil" && !IsNumeral(ws[0]) && (|ws| > 1 ==> ws[1] != "mil")
  {
    hide UnitAt, TenAt, HundredAt, ReadBelowHundred, PhraseBelowHundred, HUNDREDS;
    TableSizes();
    if n == 100 {
      assert "cien"[0] == 'c' && "mil"[0] == 'm' && "cien"[1] == 'i' && "cero"[1] == 'e';
      assert !IsDigit("cien"[0]);
    } else if n < 100 {
      BelowHundredReads(n);
      SecondIsNotMil(n);
    } else {
      HundredIs(n / 100);
      if n % 100 != 0 {
        BelowHundredReads(n % 100);
        var ws, rest := PhraseBelowThousand(n), PhraseBelowHundred(n % 100);
        assert ws == [HUNDREDS[n / 100]] + rest;
        assert ws[1..] == rest && ws[1] == rest[0];
      } else {
        CientoIsCien(n);
      }
    }
  }

  lemma CientoIsCien(n: int)
    requires 101 <= n < 1000 && n % 100 == 0
    ensures n / 100 > 1
  {
  }

  lemma SecondIsNotMil(n: int)
    requires 1 <= n < 100
    ensures |PhraseBelowHundred(n)| > 1 ==> PhraseBelowHundred(n)[1] != "mil"
  {
    assert "y"[0] == 'y' && "mil"[0] == 'm';
  }

  lemma SmallReads(n: int)
    requires 1 <= n < 1000
    ensures ReadSmall(Small(n)) == Some(n) && Small(n) != "mil" && Small(n) != "cero"
  {
    hide UnitAt, Value, Digits;
    if n < 30 {
      UnitIs(n);
    } else {
      DigitsAreCanonical(n);
      NumeralIsNoUnit(Digits(n));
      assert IsDigit(Digits(n)[0]);
    }
  }

  /** The reader reads each phrase as its number. */
  lemma PhraseReads(n: int)
    requires n >= 0
    ensures ReadWhole(Phrase(n)) == Some(n)
  {
    hide ReadSmall, Small, ReadBelowThousand, PhraseBelowThousand, Value, Digits;
    if n == 0 {
    } else if n < 1000 {
      BelowThousandReads(n);
    } else if n < 1_000_000 {
      var ws := Phrase(n);
      if n % 1000 != 0 {
        SmallReads(n % 1000);
        assert ws[|ws| - 1..] == [Small(n % 1000)];
      }
      if n / 1000 == 1 {
        assert ws[1..] == if n % 1000 == 0 then [] else [Small(n % 1000)];
      } else {
        SmallReads(n / 1000);
        assert ws[2..] == if n % 1000 == 0 then [] else [Small(n % 1000)];
      }
    } else {
      DigitsAreCanonical(n);
      NumeralIsNotSpecial(Digits(n));
    }
  }

  lemma NumeralIsNotSpecial(w: string)
    requires IsNumeral(w)
    ensures w != "mil" && w != "cero" && w != "cien"
  {
    assert IsDigit(w[0]);
  }

  lemma BelowHundredIsPhrase(ws: seq<string>)
    ensures var n := ReadBelowHundred(ws);
            n.Some? ==> 1 <= n.value < 100 && ws == PhraseBelowHundred(n.value)
  {
    hide IndexOf, UNITS, TENS;
    TableSizes();
  }

  lemma TableSizes()
    ensures |UNITS| == 30 && |TENS| == |HUNDREDS| == 10
  {
  }

  lemma BelowThousandIsPhrase(ws: seq<string>)
    ensures var n := ReadBelowThousand(ws);
            n.Some? ==> 1 <= n.value < 1000 && ws == PhraseBelowThousand(n.value)
  {
    hide IndexOf, UNITS, TENS, HUNDREDS, ReadBelowHundred, PhraseBelowHundred;
    TableSizes();
    BelowHundredIsPhrase(ws);
    if |ws| > 0 {
      BelowHundredIsPhrase(ws[1..]);
      assert ws == [ws[0]] + ws[1..];
    }
  }

  lemma SmallIsPhrase(w: string)
    ensures var n := ReadSmall(w); n.Some? ==> 1 <= n.value < 1000 && w == Small(n.value)
  {
    hide IndexOf, UNITS, Value, Digits;
    TableSizes();
    if Canonical(w) {
      CanonicalIsDigits(w);
    }
  }

  lemma RestIsPhrase(ws: seq<string>)
    ensures var n := ReadRest(ws);
            n.Some? ==> 0 <= n.value < 1000 && ws == if n.value == 0 then [] else [Small(n.value)]
  {
    hide ReadSmall, Small;
    if |ws| == 1 {
      SmallIsPhrase(ws[0]);
    }
  }

  lemma ThousandsArePhrase(ws: seq<string>)
    requires |ws| > 0 && (ws[0] == "mil" || (|ws| > 1 && ws[1] == "mil")) && ws != ["cero"]
    ensures var n := ReadWhole(ws); n.Some? ==> n.value >= 0 && ws == Phrase(n.value)
  {
    hide ReadSmall, Small, ReadRest;
    if ws[0] == "mil" {
      RestIsPhrase(ws[1..]);
      assert ws == ["mil"] + ws[1..];
    } else {
      RestIsPhrase(ws[2..]);
      SmallIsPhrase(ws[0]);
      assert ws == [ws[0], "mil"] + ws[2..];
    }
  }

  /** There is exactly one phrase for each whole number: what the reader reads as `n` is the phrase for `n`, and nothing else. */
  lemma OnePhrase(ws: seq<string>, n: int)
    ensures ReadWhole(ws) == Some(n) <==> n >= 0 && ws == Phrase(n)
  {
    if n >= 0 && ws == Phrase(n) {
      PhraseReads(n);
    }
    if ReadWhole(ws) == Some(n) {
      WholeIsPhrase(ws);
    }
  }

  lemma WholeIsPhrase(ws: seq<string>)
    ensures var n := ReadWhole(ws); n.Some? ==> n.value >= 0 && ws == Phrase(n.value)
  {
    hide ReadSmall, Small, ReadRest, ReadBelowThousand, PhraseBelowThousand, Value, Digits;
    if ws == ["cero"] {
    } else if |ws| > 0 && (ws[0] == "mil" || (|ws| > 1 && ws[1] == "mil")) {
      ThousandsArePhrase(ws);
    } else if |ws| == 1 && Canonical(ws[0]) {
      CanonicalIsDigits(ws[0]);
    } else {
      BelowThousandIsPhrase(ws);
    }
  }

  // ---------------------------------------------------------------------------------------------
  // The branches of amountToWords
  // ---------------------------------------------------------------------------------------------

  /** The phrase for a number, ready to have its initial raised. */
  ghost predicate Says(s: string, ws: seq<string>) {
    s != "" && ('a' <= s[0] <= 'z' || IsDigit(s[0])) && Split(s, ' ') == ws
  }

  lemma SaysOne(w: string)
    requires w != "" && ('a' <= w[0] <= 'z' || IsDigit(w[0])) && ' ' !in w
    ensures Says(w, [w])
  {
    SplitWhole(w, ' ');
  }

  lemma SaysMore(s: string, ws: seq<string>, w: string)
    requires Says(s, ws) && ' ' !in w
    ensures Says(s + " " + w, ws + [w])
  {
    SplitConcat(s, w, ' ');
    SplitWhole(w, ' ');
    assert s + " " + w == s + [' '] + w;
  }

  lemma SaysAnd(s: string, ws: seq<string>, w: string)
    requires Says(s, ws) && ' ' !in w
    ensures Says(s + " y " + w, ws + ["y", w])
  {
    hide Says;
    SaysMore(s, ws, "y");
    SaysMore(s + " " + "y", ws + ["y"], w);
    assert s + " y " + w == s + " " + "y" + " " + w;
    assert ws + ["y"] + [w] == ws + ["y", w];
  }

  method UnitOf(i: nat) returns (w: string)
    requires 1 <= i < 30
    ensures w == UNITS[i] && ' ' !in w && Says(w, [w])
  {
    w := UNITS[i];
    UnitIsWord(i);
    SaysOne(w);
  }

  method TenOf(t: nat) returns (w: string)
    requires 3 <= t < 10
    ensures w == TENS[t] && ' ' !in w && Says(w, [w])
  {
    w := TENS[t];
    TenIsWord(t);
    SaysOne(w);
  }

  method HundredOf(h: nat) returns (w: string)
    requires 1 <= h < 10
    ensures w == HUNDREDS[h] && Says(w, [w])
  {
    w := HUNDREDS[h];
    HundredIsWord(h);
    SaysOne(w);
  }

  method BelowHundred(n: nat) returns (s: string)
    requires 1 <= n < 100
    ensures Says(s, PhraseBelowHundred(n))
    ensures ReadBelowHundred(Split(s, ' ')) == Some(n)
  {
    hide UNITS, TENS, ReadBelowHundred, Split;
    BelowHundredReads(n);
    if n < 30 {
      s := UnitOf(n);
    } else {
      var t, u := n / 10, n % 10;
      var ten := TenOf(t);
      if u == 0 {
        s := ten;
      } else {
        var unit := UnitOf(u);
        s := ten + " y " + unit;
        SaysAnd(ten, [ten], unit);
        assert [ten] + ["y", unit] == [ten, "y", unit];
      }
    }
  }

  method BelowThousand(n: nat) returns (s: string)
    requires 100 < n < 1000
    ensures Says(s, PhraseBelowThousand(n))
    ensures ReadBelowThousand(Split(s, ' ')) == Some(n)
  {
    hide UNITS, TENS, HUNDREDS, ReadBelowThousand, Split, Says;
    BelowThousandReads(n);
    var h, rest := n / 100, n % 100;
    var hundred := HundredOf(h);
    if rest == 0 {
      s := hundred;
      assert [hundred] + [] == [hundred];
    } else if rest < 30 {
      var unit := UnitOf(rest);
      s := hundred + " " + unit;
      SaysMore(hundred, [hundred], unit);
    } else {
      var t, u := rest / 10, rest % 10;
      var ten := TenOf(t);
      SaysMore(hundred, [hundred], ten);
      if u == 0 {
        s := hundred + " " + ten;
      } else {
        var unit := UnitOf(u);
        s := hundred + " " + ten + " y " + unit;
        SaysAnd(hundred + " " + ten, [hundred] + [ten], unit);
        assert [hundred] + [ten] + ["y", unit] == [hundred] + [ten, "y", unit];
      }
    }
    SaysSplit(s, PhraseBelowThousand(n));
  }

  lemma SaysSplit(s: string, ws: seq<string>)
    ensures Says(s, ws) ==> Split(s, ' ') == ws
  {
  }

  /** The words and numerals around "mil", as the code chooses them. */
  method SmallOf(n: nat) returns (w: string)
    requires 1 <= n < 1000
    ensures w == Small(n) && ' ' !in w && Says(w, [w])
  {
    if n < 30 {
      w := UnitOf(n);
    } else {
      w := Digits(n);
      DigitsAreCanonical(n);
      SaysOne(w);
    }
  }

  method BelowMillion(n: nat) returns (s: string)
    requires 1000 <= n < 1_000_000
    ensures Says(s, Phrase(n))
    ensures ReadWhole(Split(s, ' ')) == Some(n)
  {
    hide ReadWhole, Split, Says, Small;
    PhraseReads(n);
    var thousands, rest := n / 1000, n % 1000;
    ghost var ws: seq<string>;
    if thousands == 1 {
      s := "mil";
      SaysOne("mil");
      ws := ["mil"];
    } else {
      var t := SmallOf(thousands);
      s := t + " mil";
      SaysMore(t, [t], "mil");
      assert t + " " + "mil" == t + " mil";
      ws := [t] + ["mil"];
      assert ws == [t, "mil"];
    }
    if rest != 0 {
      var r := SmallOf(rest);
      SaysMore(s, ws, r);
      s := s + " " + r;
      ws := ws + [r];
    } else {
      assert ws + [] == ws;
    }
    assert ws == Phrase(n);
    SaysSplit(s, ws);
  }

  // ---------------------------------------------------------------------------------------------
  // The whole amount
  // ---------------------------------------------------------------------------------------------

  /** `strings.ToUpper` on the first character, which is an ASCII letter or a digit. */
  function Capitalized(s: string): string
    requires s != ""
  {
    [if 'a' <= s[0] <= 'z' then s[0] - 'a' + 'A' else s[0]] + s[1..]
  }

  lemma CapitalizedReads(words: string, n: int, cents: nat)
    requires n >= 0 && cents <= 100 && Says(words, Phrase(n))
    ensures ReadWords(Capitalized(words) + " con " + TwoDigits(cents) + "/100") == Some(100 * n + cents)
  {
    hide ReadWhole, Phrase, Split, Value, TwoDigits;
    var cc := TwoDigits(cents);
    var s := Capitalized(words) + " con " + cc + "/100";
    CentsRead(cents);
    CentsLength(cents);
    PhraseReads(n);
    assert Lower(s) == words + " con " + (cc + "/100");
    var tail := cc + "/100";
    SplitPhrase(words, tail);
    var ts := Split(words, ' ');
    assert (ts + ["con"] + [tail])[..|ts|] == ts;
    NonEmptySplit(words);
  }

  lemma NonEmptySplit(s: string)
    ensures |Split(s, ' ')| >= 1
  {
  }

  lemma CentsLength(cents: nat)
    requires cents <= 100
    ensures |TwoDigits(cents)| == 2 || TwoDigits(cents) == "100"
  {
    if cents < 100 {
      TwoDigitsSpelled(cents);
    } else {
      assert Digits(100) == Digits(10) + ['0'] && Digits(10) == Digits(1) + ['0'] && Digits(1) == ['1'];
    }
  }

  lemma SplitPhrase(words: string, tail: string)
    requires ' ' !in tail
    ensures Split(words + " con " + tail, ' ') == Split(words, ' ') + ["con"] + [tail]
  {
    SplitWhole(tail, ' ');
    SplitWhole("con", ' ');
    SplitConcat(words, "con", ' ');
    SplitConcat(words + [' '] + "con", tail, ' ');
    assert words + " con " + tail == (words + [' '] + "con") + [' '] + tail;
  }

  lemma CentsRead(cents: nat)
    ensures var cc := TwoDigits(cents);
            IsNumeral(cc) && Value(cc) == cents && ' ' !in cc + "/100" && Split(cc + "/100", '/') == [cc, "100"]
  {
    var cc := TwoDigits(cents);
    ValueOfDigits(cents);
    if cents < 10 {
      ValueConcat("0", Digits(cents));
      assert Value("0") == 0 by { ValueSnoc("", '0'); assert "" + ['0'] == "0"; }
    }
    NumeralHasNo(cc, ' ');
    NumeralHasNo(cc, '/');
    SplitWhole(cc, '/');
    SplitWhole("100", '/');
    SplitConcat(cc, "100", '/');
    assert cc + "/100" == cc + ['/'] + "100";
  }

  /** Only one integer lies within half a divisor below and strictly less than half above. */
  lemma RoundDivUnique(a: nat, p: int, m: int)
    requires p > 0 && 2 * (m * p) - p <= 2 * a < 2 * (m * p) + p
    ensures RoundDiv(a, p) == m
  {
    hide RoundDiv;
    var k := RoundDiv(a, p);
    RoundDivBounds(a, p);
    assert (k + 1) * p == k * p + p && (m + 1) * p == m * p + p;
    if k < m {
      MulMono(k + 1, m, p);
    } else if m < k {
      MulMono(m + 1, k, p);
    }
  }

  /** Splitting off the integer part and rounding the rest to cents is rounding the whole to cents. */
  lemma RoundFine(v: nat, p: int)
    requires p > 0
    ensures v / (p * 100) * 100 + RoundDiv(v % (p * 100) * 100, p * 100) == RoundDiv(v, p)
  {
    hide RoundDiv;
    var q, r := v / (p * 100), v % (p * 100);
    Division(v, p * 100);
    var k := RoundDiv(r, p);
    RoundDivBounds(r, p);
    assert k * (p * 100) == k * p * 100;
    RoundDivUnique(r * 100, p * 100, k);
    assert (q * 100 + k) * p == q * (p * 100) + k * p;
    RoundDivUnique(v, p, q * 100 + k);
  }

  /** The cents `amountToWords` prints beyond `whole`: the rest times a hundred, rounded. */
  function RoundedBeyond(d: Decimal, whole: int): int {
    var (a, p) := Scaled(d, 0);
    RoundDiv((a - whole * p) * 100, p)
  }

  /** `Floor` */
  function Floor(d: Decimal): int {
    Scaled(d, 0).0 / Scaled(d, 0).1
  }

  lemma RestRounds(r: nat, p: int)
    requires r < p
    ensures 0 <= RoundDiv(r * 100, p) <= 100
  {
    hide RoundDiv;
    RoundDivBounds(r * 100, p);
    var m := RoundDiv(r * 100, p);
    if m > 100 {
      MulMono(101, m, p);
    }
  }

  /** Whole part and rounded cents together are the amount rounded to cents. */
  lemma RoundedAtCents(d: Decimal)
    requires d.value >= 0
    ensures Floor(d) >= 0 && 0 <= RoundedBeyond(d, Floor(d)) <= 100
    ensures Floor(d) * 100 + RoundedBeyond(d, Floor(d)) == Rounded(d, 2)
    ensures d.exp >= -2 ==> Rounded(d, 2) == d.value * Pow10(d.exp + 2)
  {
    hide RoundDiv;
    var (a, p) := Scaled(d, 0);
    assert a >= 0 by { CutParts(d); }
    Division(a, p);
    assert a - Floor(d) * p == a % p;
    RestRounds(a % p, p);
    Pow10Small();
    if d.exp >= 0 {
      Pow10Add(d.exp, 2);
      WholeCents(d.value, Pow10(d.exp), Pow10(d.exp + 2));
      RoundDivExact(0, 1);
    } else if d.exp < -2 {
      Pow10Add(-(d.exp + 2), 2);
      RoundFine(d.value, Pow10(-(d.exp + 2)));
    } else if d.exp == -1 {
      RoundDivExact(a % 10 * 10, 10);
    } else {
      RoundDivExact(a % 100, 100);
    }
  }

  lemma NegativeFloor(d: Decimal)
    ensures Floor(d) < 0 <==> d.value < 0
  {
    var (a, p) := Scaled(d, 0);
    if d.exp >= 0 {
      if d.value < 0 {
        MulMono(1, Pow10(d.exp), -d.value);
        NegatedProduct(d.value, Pow10(d.exp));
      }
    }
    assert a < 0 <==> d.value < 0;
    var q := a / p;
    assert a == q * p + a % p;
    if q >= 0 {
      MulMono(0, q, p);
    } else {
      MulMono(q, -1, p);
    }
  }

  datatype Panic = IndexOutOfRange

  /**
   For every amount that is not negative and whose whole part fits 64 bits the words read back as the amount
   rounded to cents, so exactly as the amount when it has at most two decimals, and no branch leaves its table.
   A negative amount does leave it: `units[intPart]` panics.
   */
  method AmountToWords(amount: Decimal) returns (r: Result<string, Panic>)
    ensures r.Err? <==> Int64(Floor(amount)) < 0
    ensures FitsInt64(Floor(amount)) ==> (r.Err? <==> amount.value < 0)
    ensures FitsInt64(Floor(amount)) && r.Ok? ==> ReadWords(r.value) == Some(Rounded(amount, 2))
    ensures FitsInt64(Floor(amount)) && r.Ok? && amount.exp >= -2 ==> ReadWords(r.value) == Some(amount.value * Pow10(amount.exp + 2))
  {
    hide *;
    NegativeFloor(amount);
    var intPart := Int64(Floor(amount));
    var centsPart := Int64(RoundedBeyond(amount, intPart));
    var intWords: string;
    if intPart == 0 {
      intWords := "cero";
    } else if intPart == 100 {
      intWords := "cien";
    } else if intPart < 0 {
      return Err(IndexOutOfRange);
    } else if intPart < 100 {
      intWords := BelowHundred(intPart);
    } else if intPart < 1000 {
      intWords := BelowThousand(intPart);
    } else if intPart < 1_000_000 {
      intWords := BelowMillion(intPart);
    } else {
      intWords := Digits(intPart);
    }
    WholeSaid(intPart, intWords);
    r := Ok(Capitalized(intWords) + " con " + TwoDigits(centsPart) + "/100");
    if FitsInt64(Floor(amount)) {
      RoundedAtCents(amount);
      SmallFits(RoundedBeyond(amount, intPart));
      CapitalizedReads(intWords, intPart, centsPart);
    }
  }

  /** Whichever branch the words come from, they say the whole number. */
  lemma WholeSaid(n: nat, s: string)
    requires n == 0 ==> s == "cero"
    requires n == 100 ==> s == "cien"
    requires 1 <= n < 100 ==> Says(s, PhraseBelowHundred(n))
    requires 100 < n < 1000 ==> Says(s, PhraseBelowThousand(n))
    requires 1000 <= n < 1_000_000 ==> Says(s, Phrase(n))
    requires n >= 1_000_000 ==> s == Digits(n)
    ensures Says(s, Phrase(n)) && s != ""
  {
    hide Split;
    SaysOne("cero");
    SaysOne("cien");
    if n >= 1_000_000 {
      DigitsAreCanonical(n);
      SaysOne(s);
    }
  }

  lemma SmallFits(c: int)
    requires 0 <= c <= 100
    ensures FitsInt64(c)
  {
  }
}
