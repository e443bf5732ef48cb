/** Exact arithmetic used by the producer kernel: rounding modes and finite sums. */
module RealMath {
  import Sorting

  function Abs(x: real): real { if x < 0.0 then -x else x }

  function Square(x: real): real { x * x }

  /** `math.trunc`: rounding toward zero. */
  function Trunc(x: real): int { if x < 0.0 then -((-x).Floor) else x.Floor }

  function Ceil(x: real): int { -((-x).Floor) }

  /** Python's `round`: nearest integer, ties to even. */
  function RoundHalfEven(x: real): (r: int)
    ensures -0.5 <= r as real - x <= 0.5
  {
    var f := x.Floor;
    var rest := x - f as real;
    if rest < 0.5 || (rest == 0.5 && f % 2 == 0) then f else f + 1
  }

  lemma SquareMonotone(a: real, b: real)
    requires 0.0 <= a <= b
    ensures 0.0 <= Square(a) <= Square(b)
  {
    assert a * a <= a * b;
    assert a * b <= b * b;
  }

  lemma MulMonotone(a: real, b: real, c: real)
    requires a <= b && 0.0 <= c
    ensures a * c <= b * c && c * a <= c * b
  {
    assert (b - a) * c >= 0.0;
  }

  function Times(a: real, b: real): real { a * b }

  /** Keeps a product out of sight of lemmas that only need it as a relation. */
  ghost predicate IsScaled(c: real, a: real, b: real) { b == Times(a, c) }

  lemma ScaledSum(c: real, a: real, b: real, a': real, b': real)
    requires IsScaled(c, a, a') && IsScaled(c, b, b')
    ensures IsScaled(c, a + b, a' + b')
  {}

  lemma RatioBounds(a: real, b: real)
    requires 0.0 < a <= b
    ensures 0.0 < a / b <= 1.0
  {}

  lemma SelfRatio(x: real)
    requires x != 0.0
    ensures x / x == 1.0
  {}

  lemma RatioScales(a: real, b: real, r: real)
    requires b != 0.0 && IsScaled(a / b, b, r)
    ensures r == a
  {}

  function MinReal(s: seq<real>): (m: real)
    requires s != []
    ensures m in s && forall x :: x in s ==> m <= x
  {
    if |s| == 1 then s[0]
    else
      var rest := MinReal(s[1..]);
      assert s == [s[0]] + s[1..];
      if s[0] <= rest then s[0] else rest
  }

  function MaxReal(s: seq<real>): (m: real)
    requires s != []
    ensures m in s && forall x :: x in s ==> x <= m
  {
    if |s| == 1 then s[0]
    else
      var rest := MaxReal(s[1..]);
      assert s == [s[0]] + s[1..];
      if s[0] >= rest then s[0] else rest
  }

  /** The exact sum of `f` over a list of indices (`math.fsum` without rounding). */
  function SumOver(f: int -> real, s: seq<int>): real {
    if s == [] then 0.0 else SumOver(f, s[..|s| - 1]) + f(s[|s| - 1])
  }

  lemma {:induction false} SumConcat(f: int -> real, a: seq<int>, b: seq<int>)
    ensures SumOver(f, a + b) == SumOver(f, a) + SumOver(f, b)
  {
    if b == [] {
      assert a + b == a;
    } else {
      SumConcat(f, a, b[..|b| - 1]);
      assert (a + b)[..|a + b| - 1] == a + b[..|b| - 1];
    }
  }

  lemma SumRemove(f: int -> real, b: seq<int>, i: nat)
    requires i < |b|
    ensures SumOver(f, b) == SumOver(f, b[..i] + b[i + 1..]) + f(b[i])
  {
    SumConcat(f, b[..i + 1], b[i + 1..]);
    SumConcat(f, b[..i], b[i + 1..]);
    assert b == b[..i + 1] + b[i + 1..];
    assert b[..i + 1][..i] == b[..i];
  }

  /** A sum does not depend on the order of its terms. */
  lemma {:induction false} SumPermutes(f: int -> real, a: seq<int>, b: seq<int>)
    requires multiset(a) == multiset(b)
    ensures SumOver(f, a) == SumOver(f, b)
    decreases |a|
  {
    hide SumOver;
    assert |a| == |multiset(a)| == |multiset(b)| == |b|;
    if a != [] {
      assert a[0] in multiset(b);
      var i :| 0 <= i < |b| && b[i] == a[0];
      Sorting.MultisetRemove(a, 0);
      Sorting.MultisetRemove(b, i);
      SumRemove(f, a, 0);
      SumRemove(f, b, i);
      SumPermutes(f, a[..0] + a[0 + 1..], b[..i] + b[i + 1..]);
    }
  }
}
