/** The latency and interval summaries: interpolated quantiles of a list, and how they are ordered. */
module TickDistribution {
  import opened Optional
  import opened RealMath
  import opened Sorting

  function RealLeq(a: real, b: real): bool { a <= b }

  ghost predicate Ascending(s: seq<real>) { forall i, j :: 0 <= i < j < |s| ==> s[i] <= s[j] }

  /** Python's `round(x, 6)`. */
  function RoundSix(x: real): real { RoundHalfEven(x * 1000000.0) as real / 1000000.0 }

  /** The value at a fractional position, interpolated between its neighbours. */
  function At(ordered: seq<real>, position: real): real
    requires ordered != [] && 0.0 <= position <= (|ordered| - 1) as real
  {
    var lower, upper := position.Floor, Ceil(position);
    if lower == upper then ordered[lower]
    else
      var weight := position - lower as real;
      ordered[lower] * (1.0 - weight) + ordered[upper] * weight
  }

  lemma Scale(a: real, b: real, c: real)
    requires a <= b && 0.0 <= c
    ensures Times(a, c) <= Times(b, c) && Times(0.0, c) == 0.0 && Times(1.0, c) == c
  {
    MulMonotone(a, b, c);
  }

  /** Where a percentile falls in a list of `n` values. */
  function Position(n: nat, percentile: real): (x: real)
    requires n > 0 && 0.0 <= percentile <= 1.0
    ensures 0.0 <= x <= (n - 1) as real
  {
    Scale(0.0, percentile, (n - 1) as real);
    Scale(percentile, 1.0, (n - 1) as real);
    Times(percentile, (n - 1) as real)
  }

  function Quantile(ordered: seq<real>, percentile: real): Option<real>
    requires 0.0 <= percentile <= 1.0
  {
    if ordered == [] then None else Some(RoundSix(At(ordered, Position(|ordered|, percentile))))
  }

  datatype Distribution = Distribution(samples: nat, p50: Option<real>, p95: Option<real>, p99: Option<real>, max: Option<real>)

  function DistributionOf(values: seq<real>): Distribution {
    var ordered := SortBy(values, RealLeq);
    Distribution(|ordered|, Quantile(ordered, 0.50), Quantile(ordered, 0.95), Quantile(ordered, 0.99),
                 if ordered == [] then None else Some(RoundSix(ordered[|ordered| - 1])))
  }

  /** Between two neighbours the value lies between them. */
  lemma AtBetween(ordered: seq<real>, x: real)
    requires Ascending(ordered) && ordered != [] && 0.0 <= x <= (|ordered| - 1) as real
    ensures ordered[x.Floor] <= At(ordered, x) <= ordered[Ceil(x)]
  {
    var lower, upper := x.Floor, Ceil(x);
    if lower != upper {
      var w := x - lower as real;
      Blend(ordered[lower], ordered[upper], w);
    }
  }

  lemma Blend(a: real, b: real, w: real)
    requires a <= b && 0.0 <= w <= 1.0
    ensures a <= a * (1.0 - w) + b * w <= b
  {
    assert a * (1.0 - w) + b * w == a + (b - a) * w;
    MulMonotone(w, 1.0, b - a);
  }

  lemma BlendMonotone(a: real, b: real, w: real, v: real)
    requires a <= b && w <= v
    ensures a * (1.0 - w) + b * w <= a * (1.0 - v) + b * v
  {
    assert a * (1.0 - w) + b * w == a + (b - a) * w && a * (1.0 - v) + b * v == a + (b - a) * v;
    MulMonotone(w, v, b - a);
  }

  /** Between two neighbours the value moves in proportion to the position. */
  lemma AtProportional(ordered: seq<real>, x: real)
    requires ordered != [] && 0.0 <= x <= (|ordered| - 1) as real
    ensures var low, high := ordered[x.Floor], ordered[Ceil(x)];
      At(ordered, x) - low == Times(x - x.Floor as real, high - low)
  {
    var a, b, w := ordered[x.Floor], ordered[Ceil(x)], x - x.Floor as real;
    BlendIs(a, b, w);
    assert x.Floor == Ceil(x) ==> w == 0.0;
  }

  lemma BlendIs(a: real, b: real, w: real)
    ensures a * (1.0 - w) + b * w == a + Times(w, b - a)
  {}

  lemma EvenBlend(start: real, step: real, k: int, w: real)
    ensures (start + Times(k as real, step)) * (1.0 - w) + (start + Times((k + 1) as real, step)) * w
         == start + Times(k as real + w, step)
  {
    BlendIs(start + Times(k as real, step), start + Times((k + 1) as real, step), w);
    assert Times((k + 1) as real, step) - Times(k as real, step) == step;
    assert Times(k as real + w, step) == Times(k as real, step) + Times(w, step);
  }

  lemma AtEvenSteps(ordered: seq<real>, start: real, step: real, x: real)
    requires ordered != [] && forall i :: 0 <= i < |ordered| ==> ordered[i] == start + Times(i as real, step)
    requires 0.0 <= x <= (|ordered| - 1) as real
    ensures At(ordered, x) == start + Times(x, step)
  {
    hide Times;
    var k := x.Floor;
    if k == Ceil(x) {
      assert x == k as real;
    } else {
      assert Ceil(x) == k + 1;
      EvenBlend(start, step, k, x - k as real);
      assert k as real + (x - k as real) == x;
    }
  }

  /** A quantile of evenly spaced values lies the same share of the way from the first to the last. */
  lemma QuantileOfEvenSteps(ordered: seq<real>, start: real, step: real, percentile: real)
    requires ordered != [] && forall i :: 0 <= i < |ordered| ==> ordered[i] == start + Times(i as real, step)
    requires 0.0 <= percentile <= 1.0
    ensures Quantile(ordered, percentile) == Some(RoundSix(start + Times(Times(percentile, (|ordered| - 1) as real), step)))
  {
    hide Times, RoundSix;
    AtEvenSteps(ordered, start, step, Position(|ordered|, percentile));
  }

  /** Rounding to six decimals moves a value by at most half a unit of the sixth. */
  lemma RoundSixNear(x: real)
    ensures -0.0000005 <= RoundSix(x) - x <= 0.0000005
  {
    var r := RoundHalfEven(x * 1000000.0) as real;
    assert RoundSix(x) == r / 1000000.0;
    assert -0.5 <= r - x * 1000000.0 <= 0.5;
  }

  /** A later position never has a smaller value. */
  lemma AtMonotone(ordered: seq<real>, x: real, y: real)
    requires Ascending(ordered) && ordered != [] && 0.0 <= x <= y <= (|ordered| - 1) as real
    ensures At(ordered, x) <= At(ordered, y)
  {
    AtBetween(ordered, x);
    AtBetween(ordered, y);
    if x.Floor < y.Floor {
      assert Ceil(x) <= y.Floor;
    } else if Ceil(x) == Ceil(y) && x.Floor != Ceil(x) {
      BlendMonotone(ordered[x.Floor], ordered[Ceil(x)], x - x.Floor as real, y - x.Floor as real);
    }
  }

  lemma RoundMonotone(x: real, y: real)
    requires x <= y
    ensures RoundHalfEven(x) <= RoundHalfEven(y)
  {}

  lemma RoundSixMonotone(x: real, y: real)
    requires x <= y
    ensures RoundSix(x) <= RoundSix(y)
  {
    RoundMonotone(x * 1000000.0, y * 1000000.0);
  }

  lemma PositionMonotone(n: nat, p: real, q: real)
    requires n > 0 && 0.0 <= p <= q <= 1.0
    ensures Position(n, p) <= Position(n, q)
  {
    Scale(p, q, (n - 1) as real);
  }

  /** Quantiles of one list grow with the percentile, from its least value to its greatest. */
  lemma QuantilesOrdered(ordered: seq<real>, p: real, q: real)
    requires Ascending(ordered) && ordered != [] && 0.0 <= p <= q <= 1.0
    ensures RoundSix(ordered[0]) <= Quantile(ordered, p).value <= Quantile(ordered, q).value <= RoundSix(ordered[|ordered| - 1])
  {
    var n := |ordered|;
    var x, y := Position(n, p), Position(n, q);
    PositionMonotone(n, p, q);
    AtMonotone(ordered, x, y);
    AtBetween(ordered, x);
    AtBetween(ordered, y);
    assert ordered[0] <= ordered[x.Floor] && ordered[Ceil(y)] <= ordered[n - 1];
    RoundSixMonotone(ordered[0], At(ordered, x));
    RoundSixMonotone(At(ordered, x), At(ordered, y));
    RoundSixMonotone(At(ordered, y), ordered[n - 1]);
  }

  /** Every summary is ordered, bounded by the list, and the same for every listing of the values. */
  lemma DistributionOrdered(values: seq<real>)
    ensures var d := DistributionOf(values);
      && d.samples == |values|
      && (values == [] <==> d.p50.None?) && (values == [] <==> d.max.None?)
      && (values != [] ==>
            && d.p50.Some? && d.p95.Some? && d.p99.Some?
            && d.p50.value <= d.p95.value <= d.p99.value <= d.max.value
            && (exists v :: v in values && d.max.value == RoundSix(v))
            && forall v :: v in values ==> RoundSix(v) <= d.max.value)
  {
    hide RoundSix, At, Position;
    var ordered := SortBy(values, RealLeq);
    assert TotalPreorder(RealLeq);
    SortPermutes(values, RealLeq);
    SortSorted(values, RealLeq);
    if values != [] {
      QuantilesOrdered(ordered, 0.50, 0.95);
      QuantilesOrdered(ordered, 0.95, 0.99);
      assert ordered[|ordered| - 1] in values;
      forall v | v in values ensures RoundSix(v) <= RoundSix(ordered[|ordered| - 1]) {
        var i :| 0 <= i < |ordered| && ordered[i] == v;
        RoundSixMonotone(v, ordered[|ordered| - 1]);
      }
    }
  }

  lemma DistributionOrderIndependent(a: seq<real>, b: seq<real>)
    requires multiset(a) == multiset(b)
    ensures DistributionOf(a) == DistributionOf(b)
  {
    assert TotalPreorder(RealLeq);
    SortOrderIndependent(a, b, RealLeq);
  }
}
