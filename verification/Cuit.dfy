/** The CUIT check digit (`_validar_cuit`, afip-sidecar/afip_client.py). */
module Cuit {
  import opened Decimals

  const PESOS: seq<int> := [5, 4, 3, 2, 7, 6, 5, 4, 3, 2, 1]

  /** What Python's `str.strip` takes for white space. */
  predicate IsSpace(c: char) {
    var x := c as int;
    || 0x09 <= x <= 0x0d || 0x1c <= x <= 0x20 || x == 0x85 || x == 0xa0 || x == 0x1680
    || 0x2000 <= x <= 0x200a || x == 0x2028 || x == 0x2029 || x == 0x202f || x == 0x205f || x == 0x3000
  }

  function StripLeft(s: string): string {
    if s != [] && IsSpace(s[0]) then StripLeft(s[1..]) else s
  }

  /** `str.strip` */
  function Strip(s: string): string {
    if s != [] && IsSpace(s[|s| - 1]) then Strip(s[..|s| - 1]) else StripLeft(s)
  }

  /** The weighted sum of the first `n` digits. */
  function Ponderada(s: string, n: nat): int
    requires n <= |s| && n <= 11
  {
    if n == 0 then 0 else Ponderada(s, n - 1) + DigitValue(s[n - 1]) * PESOS[n - 1]
  }

  predicate ValidarCuit(entrada: string) {
    var cuit := Strip(entrada);
    if |cuit| != 11 || !IsNumeral(cuit) then false
    else
      var resto := Ponderada(cuit, 10) % 11;
      if resto == 0 then DigitValue(cuit[10]) == 0
      else if resto == 1 then false
      else 11 - resto == DigitValue(cuit[10])
  }

  /** Eleven digits whose sum weighted by 5,4,3,2,7,6,5,4,3,2,1 is a multiple of 11. */
  ghost predicate EnElCodigo(s: string) {
    |s| == 11 && IsNumeral(s) && Ponderada(s, 11) % 11 == 0
  }

  lemma {:induction false} PonderadaNoNegativa(s: string, n: nat)
    requires n <= |s| && n <= 11 && IsNumeral(s)
    ensures Ponderada(s, n) >= 0
  {
    if n > 0 {
      PonderadaNoNegativa(s, n - 1);
    }
  }

  /** The weighted sum of eleven digits, written out. */
  lemma PonderadaEscrita(s: string)
    requires |s| == 11
    ensures Ponderada(s, 11) ==
              5 * DigitValue(s[0]) + 4 * DigitValue(s[1]) + 3 * DigitValue(s[2]) + 2 * DigitValue(s[3]) + 7 * DigitValue(s[4])
              + 6 * DigitValue(s[5]) + 5 * DigitValue(s[6]) + 4 * DigitValue(s[7]) + 3 * DigitValue(s[8]) + 2 * DigitValue(s[9]) + DigitValue(s[10])
  {
    hide Ponderada;
    PonderadaUna(s, 1, 5);
    PonderadaUna(s, 2, 4);
    PonderadaUna(s, 3, 3);
    PonderadaUna(s, 4, 2);
    PonderadaUna(s, 5, 7);
    PonderadaUna(s, 6, 6);
    PonderadaUna(s, 7, 5);
    PonderadaUna(s, 8, 4);
    PonderadaUna(s, 9, 3);
    PonderadaUna(s, 10, 2);
    PonderadaUna(s, 11, 1);
  }

  lemma PonderadaUna(s: string, n: nat, peso: int)
    requires 1 <= n <= 11 == |s| && PESOS[n - 1] == peso
    ensures Ponderada(s, n) == (if n == 1 then 0 else Ponderada(s, n - 1)) + peso * DigitValue(s[n - 1])
  {
  }

  /** Stripping takes white space off both ends, all of it and nothing else. */
  lemma {:induction false} StripEsElCentro(s: string) returns (antes: string, despues: string)
    ensures s == antes + Strip(s) + despues
    ensures (forall c :: c in antes ==> IsSpace(c)) && (forall c :: c in despues ==> IsSpace(c))
    ensures Strip(s) != [] ==> !IsSpace(Strip(s)[0]) && !IsSpace(Strip(s)[|Strip(s)| - 1])
  {
    if s != [] && IsSpace(s[|s| - 1]) {
      antes, despues := StripEsElCentro(s[..|s| - 1]);
      despues := despues + [s[|s| - 1]];
    } else {
      antes := StripLeftEsElFinal(s);
      despues := [];
    }
  }

  lemma {:induction false} StripLeftEsElFinal(s: string) returns (antes: string)
    ensures s == antes + StripLeft(s) && forall c :: c in antes ==> IsSpace(c)
    ensures StripLeft(s) != [] ==> !IsSpace(StripLeft(s)[0]) && StripLeft(s)[|StripLeft(s)| - 1] == s[|s| - 1]
  {
    if s != [] && IsSpace(s[0]) {
      antes := StripLeftEsElFinal(s[1..]);
      antes := [s[0]] + antes;
    } else {
      antes := [];
    }
  }

  /** Up to the letters with accents, white space is tab to carriage return, the four separators, the blank, and 0x85 and 0xa0. */
  lemma EspaciosLatinos(c: char)
    requires c as int < 256
    ensures IsSpace(c) <==> c as int in {9, 10, 11, 12, 13, 28, 29, 30, 31, 32, 133, 160}
  {
  }

  /** The three branches accept exactly the code words. */
  lemma ValidarEsElCodigo(entrada: string)
    ensures ValidarCuit(entrada) <==> EnElCodigo(Strip(entrada))
    ensures var s := Strip(entrada);
            ValidarCuit(entrada) <==>
              && |s| == 11 && (forall i :: 0 <= i < 11 ==> '0' <= s[i] <= '9')
              && (5 * DigitValue(s[0]) + 4 * DigitValue(s[1]) + 3 * DigitValue(s[2]) + 2 * DigitValue(s[3]) + 7 * DigitValue(s[4])
                  + 6 * DigitValue(s[5]) + 5 * DigitValue(s[6]) + 4 * DigitValue(s[7]) + 3 * DigitValue(s[8]) + 2 * DigitValue(s[9])
                  + DigitValue(s[10])) % 11 == 0
  {
    hide Strip, Ponderada;
    CodigoPorRamas(entrada);
    if |Strip(entrada)| == 11 {
      PonderadaEscrita(Strip(entrada));
    }
  }

  lemma CodigoPorRamas(entrada: string)
    ensures ValidarCuit(entrada) <==> EnElCodigo(Strip(entrada))
  {
    hide Strip;
    var s := Strip(entrada);
    if |s| == 11 && IsNumeral(s) {
      PonderadaNoNegativa(s, 10);
      assert PESOS[10] == 1;
      assert Ponderada(s, 11) == Ponderada(s, 10) + DigitValue(s[10]);
    }
  }

  lemma StripNumeral(s: string)
    requires IsNumeral(s)
    ensures Strip(s) == s
  {
    assert IsDigit(s[0]) && IsDigit(s[|s| - 1]);
  }

  // ---------------------------------------------------------------------------------------------
  // What the code detects
  // ---------------------------------------------------------------------------------------------

  /** Changing one digit moves the sum by its weight times the change. */
  lemma {:induction false} PonderadaCambiada(s: string, i: nat, c: char, n: nat)
    requires i < |s| && n <= |s| && n <= 11
    ensures Ponderada(s[i := c], n) == Ponderada(s, n) + if i < n then (DigitValue(c) - DigitValue(s[i])) * PESOS[i] else 0
  {
    if n > 0 {
      PonderadaCambiada(s, i, c, n - 1);
    }
  }

  /** 11 is prime: small non-zero factors have no multiple of it as product. */
  lemma SinMultiplo(w: int, d: int)
    requires 1 <= w <= 7 && -9 <= d <= 9
    ensures (d * w) % 11 == 0 <==> d == 0
  {
    if w == 1 {
    } else if w == 2 {
    } else if w == 3 {
    } else if w == 4 {
    } else if w == 5 {
    } else if w == 6 {
    } else {
    }
  }

  lemma SumaMultiplo(a: int, b: int)
    requires a % 11 == 0
    ensures (a + b) % 11 == 0 <==> b % 11 == 0
  {
  }

  /** Every change of one digit of a valid CUIT is rejected. */
  lemma DetectaUnDigito(s: string, i: nat, c: char)
    requires EnElCodigo(s) && i < 11 && IsDigit(c) && c != s[i]
    ensures !ValidarCuit(s[i := c])
  {
    var t := s[i := c];
    StripNumeral(t);
    ValidarEsElCodigo(t);
    PonderadaCambiada(s, i, c, 11);
    var d := DigitValue(c) - DigitValue(s[i]);
    SinMultiplo(PESOS[i], d);
    SumaMultiplo(Ponderada(s, 11), d * PESOS[i]);
  }

  function Permutado(s: string, i: nat, j: nat): string
    requires i < |s| && j < |s|
  {
    s[i := s[j]][j := s[i]]
  }

  lemma PonderadaPermutada(s: string, i: nat, j: nat)
    requires |s| == 11 && i < j < 11
    ensures Ponderada(Permutado(s, i, j), 11) == Ponderada(s, 11) + (DigitValue(s[j]) - DigitValue(s[i])) * (PESOS[i] - PESOS[j])
  {
    hide Ponderada, DigitValue;
    PonderadaCambiada(s, i, s[j], 11);
    PonderadaCambiada(s[i := s[j]], j, s[i], 11);
    Intercambio(DigitValue(s[i]), DigitValue(s[j]), PESOS[i], PESOS[j]);
  }

  lemma Intercambio(x: int, y: int, v: int, w: int)
    ensures (y - x) * v + (x - y) * w == (y - x) * (v - w)
  {
  }

  /** Swapping two different digits of a valid CUIT goes unnoticed exactly when their positions weigh the same. */
  lemma DetectaPermutacion(s: string, i: nat, j: nat)
    requires EnElCodigo(s) && i < j < 11 && s[i] != s[j]
    ensures ValidarCuit(Permutado(s, i, j)) <==> PESOS[i] == PESOS[j]
  {
    hide Ponderada, ValidarCuit, Strip;
    var t := Permutado(s, i, j);
    StripNumeral(t);
    ValidarEsElCodigo(t);
    PonderadaPermutada(s, i, j);
    var d, w := DigitValue(s[j]) - DigitValue(s[i]), PESOS[i] - PESOS[j];
    SumaMultiplo(Ponderada(s, 11), d * w);
    if w > 0 {
      SinMultiplo(w, d);
    } else if w < 0 {
      SinMultiplo(-w, -d);
      assert (-d) * (-w) == d * w;
    }
  }

  /** In particular every swap of two different neighbours is rejected. */
  lemma DetectaVecinosPermutados(s: string, i: nat)
    requires EnElCodigo(s) && i < 10 && s[i] != s[i + 1]
    ensures !ValidarCuit(Permutado(s, i, i + 1))
  {
    DetectaPermutacion(s, i, i + 1);
  }

  /** The check digit that goes with a remainder, if any. */
  lemma VerificadorDe(prefijo: string, c: char)
    requires |prefijo| == 10 && IsNumeral(prefijo) && IsDigit(c)
    ensures var resto := Ponderada(prefijo, 10) % 11;
            ValidarCuit(prefijo + [c]) <==> resto != 1 && DigitValue(c) == (if resto == 0 then 0 else 11 - resto)
  {
    StripNumeral(prefijo + [c]);
    PonderadaPrefijo(prefijo, [c], 10);
  }

  /** Each prefix of ten digits has at most one check digit, and none exactly when the remainder is 1. */
  lemma UnSoloVerificador(prefijo: string)
    requires |prefijo| == 10 && IsNumeral(prefijo)
    ensures forall c, d :: IsDigit(c) && IsDigit(d) && ValidarCuit(prefijo + [c]) && ValidarCuit(prefijo + [d]) ==> c == d
    ensures (exists c :: IsDigit(c) && ValidarCuit(prefijo + [c])) <==> Ponderada(prefijo, 10) % 11 != 1
  {
    hide ValidarCuit, Ponderada;
    var resto := Ponderada(prefijo, 10) % 11;
    forall c | IsDigit(c)
      ensures ValidarCuit(prefijo + [c]) <==> resto != 1 && DigitValue(c) == (if resto == 0 then 0 else 11 - resto)
    {
      VerificadorDe(prefijo, c);
    }
    if resto != 1 {
      var c := DigitChar(if resto == 0 then 0 else 11 - resto);
      assert IsDigit(c) && ValidarCuit(prefijo + [c]);
    }
  }

  lemma {:induction false} PonderadaPrefijo(a: string, b: string, n: nat)
    requires n <= |a| && n <= 11
    ensures Ponderada(a + b, n) == Ponderada(a, n)
  {
    if n > 0 {
      PonderadaPrefijo(a, b, n - 1);
    }
  }
}
