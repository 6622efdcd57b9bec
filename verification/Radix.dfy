/** Big-endian digit sequences in an arbitrary base. */
module Radix {
  function Pow(b: nat, e: nat): nat {
    if e == 0 then 1 else b * Pow(b, e - 1)
  }

  predicate AreDigits(base: nat, s: seq<nat>) {
    forall i :: 0 <= i < |s| ==> s[i] < base
  }

  /** The number a digit sequence stands for, most significant digit first. */
  function Value(base: nat, s: seq<nat>): nat {
    if s == [] then 0 else base * Value(base, s[..|s| - 1]) + s[|s| - 1]
  }

  /** The n lowest digits of v. */
  function Expand(base: nat, v: nat, n: nat): (s: seq<nat>)
    requires base > 0
    ensures |s| == n
    decreases n
  {
    if n == 0 then [] else Expand(base, v / base, n - 1) + [v % base]
  }

  lemma PowPositive(b: nat, e: nat)
    requires b > 0
    ensures Pow(b, e) > 0
  {
    if e > 0 {
      PowPositive(b, e - 1);
    }
  }

  lemma MulAssociates(a: int, b: int, c: int)
    ensures a * (b * c) == (a * b) * c
  {
  }

  lemma {:induction false} PowAdd(b: nat, d: nat, e: nat)
    ensures Pow(b, d + e) == Pow(b, d) * Pow(b, e)
  {
    if d > 0 {
      PowAdd(b, d - 1, e);
      MulAssociates(b, Pow(b, d - 1), Pow(b, e));
    }
  }

  lemma StepBound(base: nat, v: nat, d: nat, p: nat)
    requires d < base && v < p
    ensures base * v + d < base * p
  {
    assert base * (v + 1) <= base * p;
  }

  lemma {:induction false} ExpandDigits(base: nat, v: nat, n: nat)
    requires base > 0
    ensures AreDigits(base, Expand(base, v, n))
    decreases n
  {
    if n > 0 {
      ExpandDigits(base, v / base, n - 1);
    }
  }

  lemma {:induction false} ValueBound(base: nat, s: seq<nat>)
    requires AreDigits(base, s)
    ensures Value(base, s) < Pow(base, |s|)
  {
    if s != [] {
      var t := s[..|s| - 1];
      ValueBound(base, t);
      StepBound(base, Value(base, t), s[|s| - 1], Pow(base, |t|));
    }
  }

  lemma {:induction false} ValueCons(base: nat, d: nat, s: seq<nat>)
    ensures Value(base, [d] + s) == d * Pow(base, |s|) + Value(base, s)
  {
    if s == [] {
      assert [d] + s == [d] && [d][..0] == [];
    } else {
      var t := s[..|s| - 1];
      assert ([d] + s)[..|s|] == [d] + t;
      ValueCons(base, d, t);
      MulAssociates(base, d, Pow(base, |t|));
      MulAssociates(d, base, Pow(base, |t|));
    }
  }

  /** Expanding a number's digits and reading them back is the identity, in both directions. */
  lemma {:induction false} ExpandValue(base: nat, s: seq<nat>)
    requires base > 0 && AreDigits(base, s)
    ensures Expand(base, Value(base, s), |s|) == s
  {
    if s != [] {
      var t := s[..|s| - 1];
      ExpandValue(base, t);
      DivMod(base, Value(base, t), s[|s| - 1]);
    }
  }

  lemma {:induction false} ValueExpand(base: nat, v: nat, n: nat)
    requires base > 0
    ensures Pow(base, n) > 0 && Value(base, Expand(base, v, n)) == v % Pow(base, n)
    decreases n
  {
    PowPositive(base, n);
    if n > 0 {
      PowPositive(base, n - 1);
      var t := Expand(base, v / base, n - 1);
      ValueExpand(base, v / base, n - 1);
      assert (t + [v % base])[..n - 1] == t;
      ModTimes(v, base, Pow(base, n - 1));
    }
  }

  lemma DivMod(base: nat, q: nat, r: nat)
    requires r < base
    ensures (base * q + r) / base == q && (base * q + r) % base == r
  {
    DivModUnique(base * q + r, base, q, r);
  }

  lemma DivModUnique(x: int, m: int, q: int, r: int)
    requires m > 0 && x == m * q + r && 0 <= r < m
    ensures x / m == q && x % m == r
  {
    var d := x / m - q;
    assert m * d == r - x % m;
    MulSign(m, d);
  }

  lemma MulSign(m: int, d: int)
    requires m > 0
    ensures d >= 1 ==> m * d >= m
    ensures d <= -1 ==> m * d <= -m
  {
  }

  /** Splitting a remainder at digit m. */
  lemma ModTimes(x: int, b: int, m: int)
    requires b > 0 && m > 0
    ensures b * m > 0 && x % (b * m) == b * ((x / b) % m) + x % b
  {
    var (q, r) := (x / b, x % b);
    assert b * (q % m) <= b * (m - 1);
    assert x == (b * m) * (q / m) + (b * (q % m) + r) by {
      assert b * q == b * (m * (q / m) + q % m);
      assert b * (m * (q / m)) == (b * m) * (q / m);
    }
    DivModUnique(x, b * m, q / m, b * (q % m) + r);
  }
}
