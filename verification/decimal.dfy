/** Decimal digit strings: the numeric identifiers of a version string and
    the numeric reading of a chain id. */
module Decimal {

  predicate IsDigit(c: char)
  {
    '0' <= c <= '9'
  }

  predicate AllDigits(s: string)
  {
    forall i :: 0 <= i < |s| ==> IsDigit(s[i])
  }

  /** One or more digits without a leading zero: the numeric identifier of
      Semantic Versioning 2.0.0 (item 2), and the form `Render` produces. */
  predicate Canonical(s: string)
  {
    |s| >= 1 && AllDigits(s) && (s[0] == '0' ==> |s| == 1)
  }

  function DigitValue(c: char): (d: nat)
    requires IsDigit(c)
    ensures d < 10
  {
    c as int - '0' as int
  }

  function DigitChar(d: nat): (c: char)
    requires d < 10
    ensures IsDigit(c) && DigitValue(c) == d
  {
    (d + '0' as int) as char
  }

  /** The number a digit string denotes, most significant digit first.
      The empty string denotes 0. */
  function Value(s: string): nat
    requires AllDigits(s)
    decreases |s|
  {
    if |s| == 0 then 0 else Value(s[..|s| - 1]) * 10 + DigitValue(s[|s| - 1])
  }

  /** The decimal rendering of `n`, with no leading zero. */
  function Render(n: nat): (s: string)
    ensures Canonical(s)
    ensures s[0] == '0' ==> n == 0
    decreases n
  {
    if n < 10 then [DigitChar(n)] else Render(n / 10) + [DigitChar(n % 10)]
  }

  /** Reading back a rendering gives the number rendered. */
  lemma {:induction false} ValueOfRender(n: nat)
    ensures Value(Render(n)) == n
  {
    var s := Render(n);
    if n >= 10 {
      assert s[..|s| - 1] == Render(n / 10);
      ValueOfRender(n / 10);
    }
  }

  /** A digit string that starts with a non-zero digit denotes at least 1. */
  lemma {:induction false} LeadingNonZero(s: string)
    requires |s| >= 1 && AllDigits(s) && s[0] != '0'
    ensures Value(s) >= 1
  {
    if |s| > 1 {
      LeadingNonZero(s[..|s| - 1]);
    }
  }

  /** Rendering the value of a canonical string gives the string back, so
      `Render` is a bijection between numbers and canonical strings. */
  lemma {:induction false} RenderOfValue(s: string)
    requires Canonical(s)
    ensures Render(Value(s)) == s
  {
    var last := s[|s| - 1];
    if |s| == 1 {
      assert DigitChar(DigitValue(last)) == last;
      assert s == [last];
    } else {
      var p := s[..|s| - 1];
      assert p[0] == s[0];
      LeadingNonZero(p);
      RenderOfValue(p);
      assert Value(s) / 10 == Value(p);
      assert Value(s) % 10 == DigitValue(last);
      assert DigitChar(DigitValue(last)) == last;
      assert s == p + [last];
    }
  }

  /** JavaScript's `+s` on a string, for the strings a chain id is made of. */
  datatype Number = Num(n: nat) | NaN

  /** `+s`: a digit string reads as its decimal value (the empty string as
      0); anything else reads as `NaN`. */
  function ToNumber(s: string): (r: Number)
    ensures r.Num? <==> AllDigits(s)
    ensures r.Num? ==> r.n == Value(s)
  {
    if AllDigits(s) then Num(Value(s)) else NaN
  }

  /** A chain id rendered in decimal reads back as itself. */
  lemma ToNumberOfRender(n: nat)
    ensures ToNumber(Render(n)) == Num(n)
  {
    ValueOfRender(n);
  }

  /** Leading zeros do not change the number a digit string denotes. */
  lemma {:induction false} ToNumberIgnoresLeadingZero(s: string)
    requires AllDigits(s)
    ensures ToNumber("0" + s) == ToNumber(s)
  {
    var t := "0" + s;
    if |s| > 0 {
      assert t[..|t| - 1] == "0" + s[..|s| - 1];
      assert t[|t| - 1] == s[|s| - 1];
      ToNumberIgnoresLeadingZero(s[..|s| - 1]);
    } else {
      assert Value(t) == Value(t[..0]) * 10 + DigitValue('0');
    }
  }
}
