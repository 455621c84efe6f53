/** Decimal numerals as they appear in version strings. A numeral in the
    sense of section 2 of Semantic Versioning 2.0.0 is a non-empty run of
    digits without a leading zero, so every number has exactly one. */
module Numerals {

  predicate IsDigit(c: char)
  {
    '0' <= c <= '9'
  }

  predicate AllDigits(s: string)
  {
    forall i :: 0 <= i < |s| ==> IsDigit(s[i])
  }

  /** A canonical numeral: digits only, and no leading zero unless it is "0". */
  predicate IsNumeral(s: string)
  {
    |s| > 0 && AllDigits(s) && (s[0] == '0' ==> |s| == 1)
  }

  function DigitValue(c: char): (d: nat)
    requires IsDigit(c)
    ensures d < 10
  {
    c as int - '0' as int
  }

  function DigitChar(d: nat): (c: char)
    requires d < 10
    ensures IsDigit(c) && DigitValue(c) == d
  {
    ('0' as int + d) as char
  }

  /** The number a string of digits denotes, read most significant first. */
  function Value(s: string): nat
    requires AllDigits(s)
  {
    if |s| == 0 then 0 else 10 * Value(s[..|s| - 1]) + DigitValue(s[|s| - 1])
  }

  /** The canonical decimal numeral of `n`. */
  function Render(n: nat): (s: string)
    ensures IsNumeral(s)
  {
    if n < 10 then [DigitChar(n)] else Render(n / 10) + [DigitChar(n % 10)]
  }

  /** Reading a rendered numeral gives back the number. */
  lemma {:induction false} ValueRender(n: nat)
    ensures Value(Render(n)) == n
  {
    if n >= 10 {
      ValueRender(n / 10);
      var s := Render(n);
      assert s[..|s| - 1] == Render(n / 10);
    }
  }

  /** A numeral of more than one digit denotes a positive number. */
  lemma {:induction false} LeadingDigitPositive(s: string)
    requires |s| > 0 && AllDigits(s) && s[0] != '0'
    ensures Value(s) > 0
  {
    if |s| > 1 {
      LeadingDigitPositive(s[..|s| - 1]);
    }
  }

  /** Rendering is the inverse of reading for canonical numerals: a numeral
      is the one and only spelling of its value. */
  lemma {:induction false} RenderValue(s: string)
    requires IsNumeral(s)
    ensures Render(Value(s)) == s
  {
    var n := Value(s);
    var init := s[..|s| - 1];
    var last := s[|s| - 1];
    if |s| == 1 {
      assert init == [] && Value(init) == 0;
      assert n == DigitValue(last);
      assert [DigitChar(DigitValue(last))] == s;
    } else {
      assert IsNumeral(init);
      LeadingDigitPositive(init);
      RenderValue(init);
      assert n / 10 == Value(init) && n % 10 == DigitValue(last);
      assert DigitChar(DigitValue(last)) == last;
      assert s == init + [last];
    }
  }

  /** Different numbers have different numerals. */
  lemma RenderInjective(m: nat, n: nat)
    requires Render(m) == Render(n)
    ensures m == n
  {
    ValueRender(m);
    ValueRender(n);
  }
}
