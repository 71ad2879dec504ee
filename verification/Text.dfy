/** Splitting and filtering strings, for the printers and for the readers that invert them. */
module Text {

  /** `strings.Split` on one character. */
  function Split(s: string, c: char): (ts: seq<string>)
    ensures |ts| >= 1
  {
    if s == [] then [""]
    else
      var ts := Split(s[..|s| - 1], c);
      if s[|s| - 1] == c then ts + [""] else ts[|ts| - 1 := ts[|ts| - 1] + [s[|s| - 1]]]
  }

  lemma SplitSnoc(s: string, x: char, c: char)
    ensures Split(s + [x], c) == Extended(Split(s, c), x, c)
  {
    assert (s + [x])[..|s|] == s;
  }

  function Extended(ts: seq<string>, x: char, c: char): seq<string>
    requires |ts| >= 1
  {
    if x == c then ts + [""] else ts[|ts| - 1 := ts[|ts| - 1] + [x]]
  }

  lemma ExtendedConcat(ts: seq<string>, us: seq<string>, x: char, c: char)
    requires |us| >= 1
    ensures Extended(ts + us, x, c) == ts + Extended(us, x, c)
  {
  }

  lemma {:induction false} SplitConcat(a: string, b: string, c: char)
    ensures Split(a + [c] + b, c) == Split(a, c) + Split(b, c)
    decreases |b|
  {
    if b == [] {
      assert a + [c] + b == a + [c];
      SplitSnoc(a, c, c);
    } else {
      var front, x := b[..|b| - 1], b[|b| - 1];
      SplitConcat(a, front, c);
      assert front + [x] == b;
      assert a + [c] + b == (a + [c] + front) + [x];
      SplitSnoc(a + [c] + front, x, c);
      SplitSnoc(front, x, c);
      ExtendedConcat(Split(a, c), Split(front, c), x, c);
    }
  }

  lemma {:induction false} SplitWhole(s: string, c: char)
    requires c !in s
    ensures Split(s, c) == [s]
  {
    if s != [] {
      var front, x := s[..|s| - 1], s[|s| - 1];
      SplitWhole(front, c);
      assert front + [x] == s;
      SplitSnoc(front, x, c);
    }
  }

  /** `s` with every `c` dropped. */
  function Without(s: string, c: char): string {
    if s == [] then [] else if s[0] == c then Without(s[1..], c) else [s[0]] + Without(s[1..], c)
  }

  lemma WithoutCons(x: char, s: string, c: char)
    ensures Without([x] + s, c) == (if x == c then [] else [x]) + Without(s, c)
  {
    assert ([x] + s)[1..] == s;
  }

  lemma {:induction false} WithoutConcat(a: string, b: string, c: char)
    ensures Without(a + b, c) == Without(a, c) + Without(b, c)
  {
    if a == [] {
      assert a + b == b;
    } else {
      WithoutConcat(a[1..], b, c);
      assert a + b == [a[0]] + (a[1..] + b) && a == [a[0]] + a[1..];
      WithoutCons(a[0], a[1..] + b, c);
      WithoutCons(a[0], a[1..], c);
    }
  }

  lemma {:induction false} WithoutNone(s: string, c: char)
    requires c !in s
    ensures Without(s, c) == s
  {
    if s != [] {
      WithoutNone(s[1..], c);
    }
  }
}
