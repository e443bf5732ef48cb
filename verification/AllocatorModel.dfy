/**
 Integer allocation of the frozen book: candidate lots per product, a beam search over the products
 from the heaviest lot down, and a report by product. Everything here is stated in product order,
 so the search order does not show.
 */
module AllocatorModel {
  import opened RealMath
  import opened Book
  import opened Sorting
  import opened BeamSearch
  import opened BeamOptimality
  import opened Candidates

  const BEAM_WIDTH: nat := 2048
  const N := |PRODUCTS|

  datatype Allocation = Allocation(
    quantities: seq<int>, raw: seq<real>, realized: seq<real>,
    squaredError: real, residualNet: real, objective: real, gross: real, sectorGross: seq<real>,
    statesRetained: nat)

  datatype Result = Allocated(a: Allocation) | Rejected(message: string)

  // ---------------------------------------------------------------- the book in product order

  function ProductWeights(unit: seq<real>, x: seq<int>): seq<real>
    requires |x| <= |unit|
  {
    seq(|x|, p requires 0 <= p < |x| => Times(x[p] as real, unit[p]))
  }

  /** Squared distance from the target, recomputed from realized weights. */
  function TargetError(target: seq<real>, w: seq<real>): real
    requires |w| <= |target|
  {
    if w == [] then 0.0
    else TargetError(target, w[..|w| - 1]) + Square(w[|w| - 1] - target[|w| - 1])
  }

  function Options(target: seq<real>, unit: seq<real>, p: nat): Candidates.Options
    requires p < |target| && p < |unit| && unit[p] > 0.0
  {
    CandidateQuantities(target[p] / unit[p], target[p], unit[p])
  }

  predicate Oversized(target: seq<real>, unit: seq<real>, p: nat)
    requires p < |target| && p < |unit| && unit[p] > 0.0
  {
    Abs(target[p]) > NEGLIGIBLE && Abs(target[p] / unit[p]) > MAX_LOTS as real
  }

  predicate Complete(target: seq<real>, unit: seq<real>) { |target| == N && |unit| == N }

  predicate PositiveUnits(unit: seq<real>) { forall p :: 0 <= p < |unit| ==> unit[p] > 0.0 }

  /** Exactly the inputs the allocator does not refuse. */
  predicate Allocatable(target: seq<real>, unit: seq<real>) {
    && Complete(target, unit)
    && PositiveUnits(unit)
    && forall p :: 0 <= p < N ==> !Oversized(target, unit, p)
  }

  function Lots(target: seq<real>, unit: seq<real>, p: nat): seq<int>
    requires Allocatable(target, unit) && p < N
  {
    assert !Oversized(target, unit, p);
    Options(target, unit, p).lots
  }

  lemma LotsFacts(target: seq<real>, unit: seq<real>, p: nat)
    requires Allocatable(target, unit) && p < N
    ensures 0 in Lots(target, unit, p) && |Lots(target, unit, p)| <= 6
    ensures Abs(target[p]) <= NEGLIGIBLE ==> |Lots(target, unit, p)| == 1
    ensures forall q :: q in Lots(target, unit, p) ==>
      OnSide(target[p], q) && WithinLots(q) && UnderProductCap(q, unit[p])
  {
    assert !Oversized(target, unit, p);
    OptionsListed(target[p] / unit[p], target[p], unit[p]);
    AtMostSix(target[p] / unit[p], target[p], unit[p]);
    forall q | q in Lots(target, unit, p)
      ensures OnSide(target[p], q) && WithinLots(q) && UnderProductCap(q, unit[p])
    {
      OptionsSafe(target[p] / unit[p], target[p], unit[p], q);
    }
  }

  /** Strict caps on a lot vector, recomputed product by product. */
  ghost predicate MeetsStrictCaps(unit: seq<real>, x: seq<int>)
    requires |x| == |unit| == N
  {
    var w := ProductWeights(unit, x);
    && (forall p :: 0 <= p < N ==> WithinLots(x[p]) && StrictlyBelow(Abs(w[p]), PRODUCT_CAP))
    && (forall s: nat :: s < |SECTORS| ==> StrictlyBelow(Total(Sector(s), w, SECTOR_OF), SECTOR_CAP))
    && StrictlyBelow(Total(Gross, w, SECTOR_OF), GROSS_CAP)
    && StrictlyBelow(Abs(Total(Net, w, SECTOR_OF)), NET_CAP)
  }

  /** A lot vector the allocator could have returned: candidate lots under every strict cap. */
  ghost predicate Choice(target: seq<real>, unit: seq<real>, x: seq<int>)
    requires Allocatable(target, unit)
  {
    && |x| == N
    && (forall p :: 0 <= p < N ==> x[p] in Lots(target, unit, p))
    && MeetsStrictCaps(unit, x)
  }

  function ObjectiveOf(target: seq<real>, unit: seq<real>, x: seq<int>): real
    requires |x| <= |target| && |x| <= |unit| && |x| <= N
  {
    TargetError(target, ProductWeights(unit, x)) + Square(Total(Net, ProductWeights(unit, x), SECTOR_OF))
  }

  // ---------------------------------------------------------------- the search order

  function Indices(n: nat): (r: seq<int>)
    ensures |r| == n && forall i :: 0 <= i < n ==> r[i] == i
  {
    seq(n, i => i)
  }

  function UnitAt(unit: seq<real>, i: int): real { if 0 <= i < |unit| then unit[i] else 0.0 }

  predicate Before(unit: seq<real>, i: int, j: int) {
    UnitAt(unit, i) > UnitAt(unit, j) || (UnitAt(unit, i) == UnitAt(unit, j) && i <= j)
  }

  /** Products from the heaviest lot to the lightest, ties by name. */
  function SearchOrder(unit: seq<real>): seq<int> {
    SortBy(Indices(|unit|), (i, j) => Before(unit, i, j))
  }

  ghost predicate Permutation(order: seq<int>, n: nat) {
    && |order| == n
    && (forall k :: 0 <= k < n ==> 0 <= order[k] < n)
    && (forall j, k :: 0 <= j < k < n ==> order[j] != order[k])
    && multiset(order) == multiset(Indices(n))
  }

  lemma OrderPermutes(unit: seq<real>)
    ensures Permutation(SearchOrder(unit), |unit|)
    ensures forall j, k :: 0 <= j < k < |unit| ==> unit[SearchOrder(unit)[j]] >= unit[SearchOrder(unit)[k]]
    ensures forall j, k :: 0 <= j < k < |unit| && unit[SearchOrder(unit)[j]] == unit[SearchOrder(unit)[k]] ==>
      SearchOrder(unit)[j] < SearchOrder(unit)[k]
  {
    var n, order := |unit|, SearchOrder(unit);
    var leq := (i, j) => Before(unit, i, j);
    SortPermutes(Indices(n), leq);
    SortSorted(Indices(n), leq);
    forall k | 0 <= k < n ensures 0 <= order[k] < n {
      assert order[k] in order;
    }
    DistinctIndices(n);
    DistinctByMultiset(order, Indices(n));
    assert forall j, k :: 0 <= j < k < n ==> leq(order[j], order[k]);
  }

  lemma {:induction false} DistinctIndices(n: nat)
    ensures forall x :: multiset(Indices(n))[x] <= 1
  {
    if n > 0 {
      DistinctIndices(n - 1);
      assert Indices(n) == Indices(n - 1) + [n - 1];
      assert n - 1 !in Indices(n - 1);
    }
  }

  lemma DistinctByMultiset(a: seq<int>, b: seq<int>)
    requires multiset(a) == multiset(b) && forall x :: multiset(b)[x] <= 1
    ensures forall j, k :: 0 <= j < k < |a| ==> a[j] != a[k]
  {
    forall j, k | 0 <= j < k < |a| ensures a[j] != a[k] {
      if a[j] == a[k] {
        CountedTwice(a, j, k);
      }
    }
  }

  lemma CountedTwice(a: seq<int>, j: nat, k: nat)
    requires j < k < |a| && a[j] == a[k]
    ensures multiset(a)[a[j]] >= 2
  {
    assert a == a[..j] + [a[j]] + a[j + 1..k] + [a[k]] + a[k + 1..];
  }

  function LineOf(target: seq<real>, unit: seq<real>, p: nat): Line
    requires Allocatable(target, unit) && p < N
  {
    Line(target[p], unit[p], SECTOR_OF[p], Lots(target, unit, p))
  }

  function LinesIn(target: seq<real>, unit: seq<real>, order: seq<int>): seq<Line>
    requires Allocatable(target, unit) && forall k :: 0 <= k < |order| ==> 0 <= order[k] < N
  {
    seq(|order|, k requires 0 <= k < |order| => LineOf(target, unit, order[k]))
  }

  function BookLines(target: seq<real>, unit: seq<real>): (lines: seq<Line>)
    requires Allocatable(target, unit)
    ensures |lines| == N && WellFormed(lines, |SECTORS|) && HasOptions(lines)
  {
    OrderPermutes(unit);
    LinesWellFormed(target, unit, SearchOrder(unit));
    LinesIn(target, unit, SearchOrder(unit))
  }

  lemma LinesWellFormed(target: seq<real>, unit: seq<real>, order: seq<int>)
    requires Allocatable(target, unit) && forall k :: 0 <= k < |order| ==> 0 <= order[k] < N
    ensures WellFormed(LinesIn(target, unit, order), |SECTORS|) && HasOptions(LinesIn(target, unit, order))
  {
    var lines := LinesIn(target, unit, order);
    forall k | 0 <= k < |lines| ensures 0 in lines[k].options && lines[k].sector < |SECTORS| {
      LotsFacts(target, unit, order[k]);
    }
  }

  // ---------------------------------------------------------------- product order and search order agree

  /** The lots of a product-order vector, in search order. */
  function Reorder(order: seq<int>, x: seq<int>): seq<int>
    requires forall k :: 0 <= k < |order| ==> 0 <= order[k] < |x|
  {
    seq(|order|, k requires 0 <= k < |order| => x[order[k]])
  }

  lemma ExposureByProduct(m: Measure, target: seq<real>, unit: seq<real>, x: seq<int>)
    requires Allocatable(target, unit) && |x| == N
    ensures Permutation(SearchOrder(unit), N)
    ensures Exposure(m, BookLines(target, unit), Reorder(SearchOrder(unit), x))
         == Total(m, ProductWeights(unit, x), SECTOR_OF)
  {
    OrderPermutes(unit);
    var order, lines := SearchOrder(unit), BookLines(target, unit);
    var w := ProductWeights(unit, x);
    var f := (i: int) => if 0 <= i < N then Contribution(m, w[i], SECTOR_OF[i]) else 0.0;
    TotalAsSum(m, Realized(lines, Reorder(order, x)), SectorsOf(lines), f, order);
    TotalAsSum(m, w, SECTOR_OF, f, Indices(N));
    SumPermutes(f, order, Indices(N));
  }

  lemma {:induction false} SearchErrorAsSum(lines: seq<Line>, q: seq<int>, f: int -> real, idx: seq<int>)
    requires |q| <= |lines| && |q| == |idx|
    requires forall k :: 0 <= k < |q| ==> f(idx[k]) == ErrorOf(lines[k], q[k])
    ensures SquaredError(lines, q) == SumOver(f, idx)
  {
    if q != [] {
      var n := |q| - 1;
      SearchErrorAsSum(lines, q[..n], f, idx[..n]);
    }
  }

  lemma {:induction false} TargetErrorAsSum(target: seq<real>, w: seq<real>, f: int -> real, idx: seq<int>)
    requires |w| <= |target| && |w| == |idx|
    requires forall k :: 0 <= k < |w| ==> f(idx[k]) == Square(w[k] - target[k])
    ensures TargetError(target, w) == SumOver(f, idx)
  {
    if w != [] {
      var n := |w| - 1;
      TargetErrorAsSum(target, w[..n], f, idx[..n]);
    }
  }

  function ErrorAt(target: seq<real>, unit: seq<real>, x: seq<int>, i: int): real
    requires |target| == |unit| == |x|
  {
    if 0 <= i < |x| then Miss(target[i], unit[i], x[i]) else 0.0
  }

  lemma ErrorBySearch(target: seq<real>, unit: seq<real>, x: seq<int>, order: seq<int>, f: int -> real)
    requires Allocatable(target, unit) && |x| == N && forall k :: 0 <= k < |order| ==> 0 <= order[k] < N
    requires forall i :: f(i) == ErrorAt(target, unit, x, i)
    ensures SquaredError(LinesIn(target, unit, order), Reorder(order, x)) == SumOver(f, order)
  {
    var lines, q := LinesIn(target, unit, order), Reorder(order, x);
    forall k | 0 <= k < |order| ensures f(order[k]) == ErrorOf(lines[k], q[k]) {
      assert lines[k] == LineOf(target, unit, order[k]);
    }
    SearchErrorAsSum(lines, q, f, order);
  }

  lemma ErrorByWeights(target: seq<real>, unit: seq<real>, x: seq<int>, f: int -> real)
    requires Complete(target, unit) && |x| == N
    requires forall i :: f(i) == ErrorAt(target, unit, x, i)
    ensures TargetError(target, ProductWeights(unit, x)) == SumOver(f, Indices(N))
  {
    var w := ProductWeights(unit, x);
    forall k | 0 <= k < N ensures f(Indices(N)[k]) == Square(w[k] - target[k]) {
      assert w[k] == Times(x[k] as real, unit[k]);
    }
    TargetErrorAsSum(target, w, f, Indices(N));
  }

  lemma ErrorByProduct(target: seq<real>, unit: seq<real>, x: seq<int>)
    requires Allocatable(target, unit) && |x| == N
    ensures Permutation(SearchOrder(unit), N)
    ensures SquaredError(BookLines(target, unit), Reorder(SearchOrder(unit), x))
         == TargetError(target, ProductWeights(unit, x))
  {
    OrderPermutes(unit);
    var f := (i: int) => ErrorAt(target, unit, x, i);
    ErrorBySearch(target, unit, x, SearchOrder(unit), f);
    ErrorByWeights(target, unit, x, f);
    SumPermutes(f, SearchOrder(unit), Indices(N));
  }

  /** Membership in the options, stated in either order. */
  lemma OptionsByProduct(target: seq<real>, unit: seq<real>, x: seq<int>)
    requires Allocatable(target, unit) && |x| == N
    ensures Permutation(SearchOrder(unit), N)
    ensures (forall k :: 0 <= k < N ==> Reorder(SearchOrder(unit), x)[k] in BookLines(target, unit)[k].options)
       <==> (forall p :: 0 <= p < N ==> x[p] in Lots(target, unit, p))
  {
    OrderPermutes(unit);
    var order, lines := SearchOrder(unit), BookLines(target, unit);
    var q := Reorder(order, x);
    if forall k :: 0 <= k < N ==> q[k] in lines[k].options {
      forall p: nat | p < N ensures x[p] in Lots(target, unit, p) {
        var k := PositionOf(order, p);
        assert q[k] in lines[k].options;
      }
    }
    if forall p :: 0 <= p < N ==> x[p] in Lots(target, unit, p) {
      forall k | 0 <= k < N ensures q[k] in lines[k].options {
        assert x[order[k]] in Lots(target, unit, order[k]);
      }
    }
  }

  /** Options already carry the lot and product caps. */
  lemma OptionsCarryCaps(target: seq<real>, unit: seq<real>, x: seq<int>)
    requires Allocatable(target, unit) && |x| == N
    requires forall p :: 0 <= p < N ==> x[p] in Lots(target, unit, p)
    ensures forall p :: 0 <= p < N ==>
      WithinLots(x[p]) && StrictlyBelow(Abs(ProductWeights(unit, x)[p]), PRODUCT_CAP)
  {
    forall p: nat | p < N
      ensures WithinLots(x[p]) && StrictlyBelow(Abs(ProductWeights(unit, x)[p]), PRODUCT_CAP)
    {
      LotsFacts(target, unit, p);
    }
  }

  /** The search is feasible on exactly the choices that meet the caps by product. */
  lemma FeasibleIffChoice(target: seq<real>, unit: seq<real>, x: seq<int>)
    requires Allocatable(target, unit) && |x| == N
    ensures Permutation(SearchOrder(unit), N)
    ensures Feasible(BookLines(target, unit), |SECTORS|, Reorder(SearchOrder(unit), x)) <==> Choice(target, unit, x)
  {
    OrderPermutes(unit);
    var order, lines := SearchOrder(unit), BookLines(target, unit);
    var q := Reorder(order, x);
    ExposureByProduct(Net, target, unit, x);
    ExposureByProduct(Gross, target, unit, x);
    forall s: nat ensures Exposure(Sector(s), lines, q) == Total(Sector(s), ProductWeights(unit, x), SECTOR_OF) {
      ExposureByProduct(Sector(s), target, unit, x);
    }
    OptionsByProduct(target, unit, x);
    if forall p :: 0 <= p < N ==> x[p] in Lots(target, unit, p) {
      OptionsCarryCaps(target, unit, x);
    }
  }

  lemma ObjectiveByProduct(target: seq<real>, unit: seq<real>, x: seq<int>)
    requires Allocatable(target, unit) && |x| == N
    ensures Permutation(SearchOrder(unit), N)
    ensures Objective(BookLines(target, unit), Reorder(SearchOrder(unit), x)) == ObjectiveOf(target, unit, x)
  {
    ExposureByProduct(Net, target, unit, x);
    ErrorByProduct(target, unit, x);
  }

  lemma PositionOf(order: seq<int>, p: nat) returns (k: nat)
    requires Permutation(order, N) && p < N
    ensures k < N && order[k] == p
  {
    assert Indices(N)[p] == p;
    SameElements(order, Indices(N));
    assert p in order;
    k :| 0 <= k < |order| && order[k] == p;
  }

  /** The chosen lots, put back in product order. */
  function ByProduct(order: seq<int>, q: seq<int>): seq<int>
    requires |q| == |order|
  {
    if order == [] then ZeroLots(N)
    else
      var n := |order| - 1;
      var rest := ByProduct(order[..n], q[..n]);
      if 0 <= order[n] < |rest| then rest[order[n] := q[n]] else rest
  }

  lemma {:induction false} ByProductPlaces(order: seq<int>, q: seq<int>)
    requires |q| == |order|
    requires forall k :: 0 <= k < |order| ==> 0 <= order[k] < N
    requires forall j, k :: 0 <= j < k < |order| ==> order[j] != order[k]
    ensures |ByProduct(order, q)| == N
    ensures forall k :: 0 <= k < |order| ==> ByProduct(order, q)[order[k]] == q[k]
  {
    if order != [] {
      var n := |order| - 1;
      ByProductPlaces(order[..n], q[..n]);
      forall k | 0 <= k < n ensures ByProduct(order, q)[order[k]] == q[k] {
        assert order[..n][k] == order[k];
      }
    }
  }

  /** The lots the allocator returns, as a function of its input. */
  function AllocatedLots(target: seq<real>, unit: seq<real>): (x: seq<int>)
    requires Allocatable(target, unit)
    ensures |x| == N
  {
    OrderPermutes(unit);
    ChosenFeasible(BookLines(target, unit), |SECTORS|, BEAM_WIDTH);
    ByProductPlaces(SearchOrder(unit), Chosen(BookLines(target, unit), |SECTORS|, BEAM_WIDTH));
    ByProduct(SearchOrder(unit), Chosen(BookLines(target, unit), |SECTORS|, BEAM_WIDTH))
  }

  lemma AllocatedIsChosen(target: seq<real>, unit: seq<real>)
    requires Allocatable(target, unit)
    ensures Permutation(SearchOrder(unit), N)
    ensures Reorder(SearchOrder(unit), AllocatedLots(target, unit))
         == Chosen(BookLines(target, unit), |SECTORS|, BEAM_WIDTH)
  {
    OrderPermutes(unit);
    ChosenFeasible(BookLines(target, unit), |SECTORS|, BEAM_WIDTH);
    ByProductPlaces(SearchOrder(unit), Chosen(BookLines(target, unit), |SECTORS|, BEAM_WIDTH));
  }
}
