/** Decimal notation of natural numbers. */
module Decimal {
  import opened Radix

  predicate IsDigit(c: char) {
    '0' <= c <= '9'
  }

  function DigitChar(d: nat): char
    requires d < 10
  {
    '0' + d as char
  }

  function DigitValue(c: char): nat
    requires IsDigit(c)
  {
    (c - '0') as nat
  }

  predicate AllDigits(s: string) {
    forall i :: 0 <= i < |s| ==> IsDigit(s[i])
  }

  /** n.toString() */
  function ToString(n: nat): (s: string)
    ensures s != [] && AllDigits(s)
  {
    if n < 10 then [DigitChar(n)] else ToString(n / 10) + [DigitChar(n % 10)]
  }

  function Digits(s: string): (d: seq<nat>)
    requires AllDigits(s)
    ensures |d| == |s| && AreDigits(10, d)
  {
    if s == [] then [] else Digits(s[..|s| - 1]) + [DigitValue(s[|s| - 1])]
  }

  /** The number a decimal numeral stands for. */
  function Parse(s: string): nat
    requires AllDigits(s)
  {
    Value(10, Digits(s))
  }

  lemma ParseSnoc(s: string, c: char)
    requires AllDigits(s) && IsDigit(c)
    ensures AllDigits(s + [c]) && Parse(s + [c]) == 10 * Parse(s) + DigitValue(c)
  {
    assert (s + [c])[..|s|] == s;
    assert Digits(s + [c])[..|s|] == Digits(s);
  }

  lemma {:induction false} ParseToString(n: nat)
    ensures Parse(ToString(n)) == n
  {
    if n < 10 {
      assert ToString(n) == [] + [DigitChar(n)];
      ParseSnoc([], DigitChar(n));
    } else {
      ParseToString(n / 10);
      ParseSnoc(ToString(n / 10), DigitChar(n % 10));
    }
  }

  /** s.padStart(width, "0") */
  function PadStart(s: string, width: nat): (r: string)
    ensures |r| == if |s| < width then width else |s|
    ensures AllDigits(s) ==> AllDigits(r)
    decreases width - |s|
  {
    if |s| < width then PadStart(['0'] + s, width) else s
  }

  lemma {:induction false} PaddingKeepsValue(s: string, width: nat)
    requires AllDigits(s)
    ensures Parse(PadStart(s, width)) == Parse(s)
    decreases width - |s|
  {
    if |s| < width {
      PaddingKeepsValue(['0'] + s, width);
      LeadingZero(s);
    }
  }

  lemma {:induction false} LeadingZero(s: string)
    requires AllDigits(s)
    ensures Parse(['0'] + s) == Parse(s)
  {
    if s == [] {
      assert ['0'] + s == [] + ['0'];
      ParseSnoc([], '0');
    } else {
      var t := s[..|s| - 1];
      LeadingZero(t);
      assert ['0'] + s == (['0'] + t) + [s[|s| - 1]];
      ParseSnoc(['0'] + t, s[|s| - 1]);
      assert s == t + [s[|s| - 1]];
      ParseSnoc(t, s[|s| - 1]);
    }
  }

  lemma {:induction false} LengthBound(n: nat, width: nat)
    requires width > 0 && n < Pow(10, width)
    ensures |ToString(n)| <= width
  {
    if n >= 10 {
      assert Pow(10, 1) == 10;
      assert width > 1;
      assert Pow(10, width) == 10 * Pow(10, width - 1);
      LengthBound(n / 10, width - 1);
    }
  }

  /** A numeral is determined by its length and its value. */
  lemma SameNumeral(s: string, t: string)
    requires AllDigits(s) && AllDigits(t) && |s| == |t| && Parse(s) == Parse(t)
    ensures s == t
  {
    ExpandValue(10, Digits(s));
    ExpandValue(10, Digits(t));
    DigitsInjective(s, t);
  }

  lemma {:induction false} DigitsInjective(s: string, t: string)
    requires AllDigits(s) && AllDigits(t) && Digits(s) == Digits(t)
    ensures s == t
  {
    if s != [] {
      var (s', t') := (s[..|s| - 1], t[..|t| - 1]);
      assert Digits(s') == Digits(s)[..|s| - 1];
      assert Digits(t') == Digits(t)[..|t| - 1];
      DigitsInjective(s', t');
      assert DigitValue(s[|s| - 1]) == Digits(s)[|s| - 1] == DigitValue(t[|t| - 1]);
    }
  }
}
