/** What the allocator's result guarantees: strict caps always, and when it is the optimum. */
module AllocationResults {
  import opened RealMath
  import opened Book
  import opened BeamSearch
  import opened BeamOptimality
  import opened Candidates
  import opened AllocatorModel
  import WeightCaps

  /** A non-zero entry next to its target. */
  predicate NearbyLot(target: real, unit: real, q: int)
    requires unit > 0.0
  {
    && (if target > 0.0 then q > 0 else q < 0) && Abs(target) > 0.00000000000001
    && Close(target / unit, q) && -500 <= q <= 500
  }

  /**
   A lot vector next to the target, in numbers: an entry is zero, or lies on the side of a target worth trading, within
   two and a half lots of it and at most 500 lots; every product, sector, gross and net cap holds with room to spare.
   */
  ghost predicate Nearby(target: seq<real>, unit: seq<real>, y: seq<int>)
    requires Complete(target, unit) && PositiveUnits(unit)
  {
    && |y| == N
    && (forall p :: 0 <= p < N && y[p] != 0 ==> NearbyLot(target[p], unit[p], y[p]))
    && var w := ProductWeights(unit, y);
    && (forall p :: 0 <= p < N ==> Abs(w[p]) < 0.15 - 0.000000000001)
    && (forall s: nat :: s < |SECTORS| ==> Total(Sector(s), w, SECTOR_OF) < 0.35 - 0.000000000001)
    && Total(Gross, w, SECTOR_OF) < 1.0 - 0.000000000001
    && Abs(Total(Net, w, SECTOR_OF)) < 0.10 - 0.000000000001
  }

  lemma LotExactly(target: seq<real>, unit: seq<real>, p: nat, q: int)
    requires Allocatable(target, unit) && p < N
    ensures q in Lots(target, unit, p) && WithinLots(q) && StrictlyBelow(Abs(Times(q as real, unit[p])), PRODUCT_CAP) <==>
      (q != 0 ==> NearbyLot(target[p], unit[p], q)) && Abs(Times(q as real, unit[p])) < 0.15 - 0.000000000001
  {
    hide Close;
    LotsFacts(target, unit, p);
    assert !Oversized(target, unit, p);
    if q == 0 {
      NoLots(unit[p]);
    } else if Abs(target[p]) > NEGLIGIBLE {
      ListedExactly(target[p] / unit[p], target[p], unit[p], q);
    }
  }

  lemma NoLots(unit: real)
    ensures Times(0 as real, unit) == 0.0
  {}

  /** The choices of the search are exactly the vectors next to the target. */
  lemma ChoiceExact(target: seq<real>, unit: seq<real>, y: seq<int>)
    requires Allocatable(target, unit)
    ensures Choice(target, unit, y) <==> Nearby(target, unit, y)
  {
    hide Lots, NearbyLot, Total;
    if |y| == N {
      forall p: nat | p < N
        ensures y[p] in Lots(target, unit, p) && WithinLots(y[p]) && StrictlyBelow(Abs(ProductWeights(unit, y)[p]), PRODUCT_CAP)
           <==> (y[p] != 0 ==> NearbyLot(target[p], unit[p], y[p])) && Abs(ProductWeights(unit, y)[p]) < 0.15 - 0.000000000001
      {
        LotExactly(target, unit, p, y[p]);
      }
    }
  }

  /** Safety: for every accepted input, truncated beam or not, fallback or not, every strict cap holds. */
  lemma AllocationSafe(target: seq<real>, unit: seq<real>)
    requires Allocatable(target, unit)
    ensures Choice(target, unit, AllocatedLots(target, unit))
    ensures forall p :: 0 <= p < N ==>
      (target[p] > 0.0 ==> AllocatedLots(target, unit)[p] >= 0) && (target[p] < 0.0 ==> AllocatedLots(target, unit)[p] <= 0)
  {
    var x := AllocatedLots(target, unit);
    AllocatedIsChosen(target, unit);
    ChosenFeasible(BookLines(target, unit), |SECTORS|, BEAM_WIDTH);
    FeasibleIffChoice(target, unit, x);
    forall p | 0 <= p < N ensures OnSide(target[p], x[p]) {
      assert x[p] in Lots(target, unit, p);
      LotsFacts(target, unit, p);
    }
  }

  /**
   For every accepted input and every choice: the result is at least as good, or the beam dropped something whose bound
   is at most that choice's objective. The least dropped bound is therefore a floor under anything better.
   */
  lemma AllocationGap(target: seq<real>, unit: seq<real>, y: seq<int>)
    requires Allocatable(target, unit) && Nearby(target, unit, y)
    ensures ObjectiveOf(target, unit, AllocatedLots(target, unit)) <= ObjectiveOf(target, unit, y)
      || Undercut(BookLines(target, unit), |SECTORS|, BEAM_WIDTH, ObjectiveOf(target, unit, y))
  {
    ChoiceExact(target, unit, y);
    AllocatedIsChosen(target, unit);
    ObjectiveByProduct(target, unit, AllocatedLots(target, unit));
    FeasibleIffChoice(target, unit, y);
    ObjectiveByProduct(target, unit, y);
    BeamGap(BookLines(target, unit), |SECTORS|, BEAM_WIDTH, Reorder(SearchOrder(unit), y));
  }

  /** Certificate: a result no worse than everything the beam dropped is the optimum over all choices. */
  lemma AllocationCertificate(target: seq<real>, unit: seq<real>)
    requires Allocatable(target, unit)
    requires Certified(BookLines(target, unit), |SECTORS|, BEAM_WIDTH,
                       ObjectiveOf(target, unit, AllocatedLots(target, unit)))
    ensures forall y :: Nearby(target, unit, y) ==>
      ObjectiveOf(target, unit, AllocatedLots(target, unit)) <= ObjectiveOf(target, unit, y)
  {
    forall y | Nearby(target, unit, y)
      ensures ObjectiveOf(target, unit, AllocatedLots(target, unit)) <= ObjectiveOf(target, unit, y)
    {
      AllocationGap(target, unit, y);
    }
  }

  /** Products with a target worth trading. */
  function ActiveTargets(target: seq<real>, order: seq<int>): nat
    requires forall k :: 0 <= k < |order| ==> 0 <= order[k] < |target|
  {
    if order == [] then 0
    else
      var n := |order| - 1;
      ActiveTargets(target, order[..n]) + if Abs(target[order[n]]) > NEGLIGIBLE then 1 else 0
  }

  lemma {:induction false} ActiveAsSum(target: seq<real>, order: seq<int>, f: int -> real)
    requires forall k :: 0 <= k < |order| ==> 0 <= order[k] < |target|
    requires forall k :: 0 <= k < |order| ==> f(order[k]) == if Abs(target[order[k]]) > NEGLIGIBLE then 1.0 else 0.0
    ensures ActiveTargets(target, order) as real == SumOver(f, order)
  {
    if order != [] {
      ActiveAsSum(target, order[..|order| - 1], f);
    }
  }

  lemma ActivePermutes(target: seq<real>, unit: seq<real>)
    requires |target| == |unit|
    ensures Permutation(SearchOrder(unit), |unit|)
    ensures ActiveTargets(target, SearchOrder(unit)) == ActiveTargets(target, Indices(|unit|))
  {
    OrderPermutes(unit);
    var f := (i: int) => if 0 <= i < |target| && Abs(target[i]) > NEGLIGIBLE then 1.0 else 0.0;
    ActiveAsSum(target, SearchOrder(unit), f);
    ActiveAsSum(target, Indices(|unit|), f);
    SumPermutes(f, SearchOrder(unit), Indices(|unit|));
  }

  lemma {:induction false} OpenLinesAreActive(target: seq<real>, unit: seq<real>, k: nat)
    requires Allocatable(target, unit) && k <= N
    ensures Permutation(SearchOrder(unit), N)
    ensures Open(BookLines(target, unit), k) <= ActiveTargets(target, SearchOrder(unit)[..k])
  {
    OrderPermutes(unit);
    if k > 0 {
      OpenLinesAreActive(target, unit, k - 1);
      var p := SearchOrder(unit)[k - 1];
      LotsFacts(target, unit, p);
      assert SearchOrder(unit)[..k][..k - 1] == SearchOrder(unit)[..k - 1];
    }
  }

  lemma PowersOfSix(n: nat)
    requires n <= 4
    ensures Pow6(n) <= 1296
  {
    assert Pow6(4) == 1296;
    assert Pow6(3) == 216 && Pow6(2) == 36 && Pow6(1) == 6;
  }

  /** At most four active targets: the 2048-wide beam can cut nothing. */
  lemma FourTargetsExhaustive(target: seq<real>, unit: seq<real>)
    requires Allocatable(target, unit) && ActiveTargets(target, Indices(N)) <= 4
    ensures NothingDropped(BookLines(target, unit), |SECTORS|, BEAM_WIDTH)
  {
    var lines := BookLines(target, unit);
    ActivePermutes(target, unit);
    OpenLinesAreActive(target, unit, N);
    assert SearchOrder(unit)[..N] == SearchOrder(unit);
    forall k | 0 <= k < N ensures |lines[k].options| <= 6 {
      var p := SearchOrder(unit)[k];
      LotsFacts(target, unit, p);
    }
    SixPerOpenLine(lines, N);
    PowersOfSix(Open(lines, N));
    SmallBookExhaustive(lines, |SECTORS|, BEAM_WIDTH);
  }

  /** Objective, then error, then residual net, then the lots in search order. */
  ghost function ChoiceKey(target: seq<real>, unit: seq<real>, x: seq<int>): Key
    requires Allocatable(target, unit) && |x| == N
  {
    OrderPermutes(unit);
    Key(ObjectiveOf(target, unit, x), TargetError(target, ProductWeights(unit, x)),
        Abs(Total(Net, ProductWeights(unit, x), SECTOR_OF)), Reorder(SearchOrder(unit), x))
  }

  lemma KeyByProduct(target: seq<real>, unit: seq<real>, x: seq<int>)
    requires Allocatable(target, unit) && |x| == N
    ensures Permutation(SearchOrder(unit), N)
    ensures FinalKey(StateFor(BookLines(target, unit), |SECTORS|, Reorder(SearchOrder(unit), x)))
         == ChoiceKey(target, unit, x)
  {
    ExposureByProduct(Net, target, unit, x);
    ErrorByProduct(target, unit, x);
  }

  /** `x` comes no later than `y`: by objective, then by error, then by residual net, then by the lots in search order. */
  ghost predicate NoWorse(target: seq<real>, unit: seq<real>, x: seq<int>, y: seq<int>)
    requires Allocatable(target, unit) && |x| == N
  {
    OrderPermutes(unit);
    |y| == N &&
    var a, b := ProductWeights(unit, x), ProductWeights(unit, y);
    var netA, netB := Abs(Total(Net, a, SECTOR_OF)), Abs(Total(Net, b, SECTOR_OF));
    && ObjectiveOf(target, unit, x) <= ObjectiveOf(target, unit, y)
    && (ObjectiveOf(target, unit, x) == ObjectiveOf(target, unit, y) ==>
          && TargetError(target, a) <= TargetError(target, b)
          && (TargetError(target, a) == TargetError(target, b) ==>
                && netA <= netB
                && (netA == netB ==>
                      LotsFirst(Reorder(SearchOrder(unit), x), Reorder(SearchOrder(unit), y)))))
  }

  /** So with at most four active targets the result comes first among all vectors next to the target. */
  lemma FourTargetsOptimal(target: seq<real>, unit: seq<real>, y: seq<int>)
    requires Allocatable(target, unit) && ActiveTargets(target, Indices(N)) <= 4
    requires Nearby(target, unit, y)
    ensures Nearby(target, unit, AllocatedLots(target, unit))
    ensures NoWorse(target, unit, AllocatedLots(target, unit), y)
  {
    hide Nearby, Choice;
    var x := AllocatedLots(target, unit);
    ChoiceExact(target, unit, y);
    ChoiceExact(target, unit, x);
    AllocationSafe(target, unit);
    ChoiceSize(target, unit, y);
    KeysCompare(target, unit, y);
  }

  lemma ChoiceSize(target: seq<real>, unit: seq<real>, y: seq<int>)
    requires Allocatable(target, unit) && Choice(target, unit, y)
    ensures |y| == N
  {}

  lemma KeysCompare(target: seq<real>, unit: seq<real>, y: seq<int>)
    requires Allocatable(target, unit) && ActiveTargets(target, Indices(N)) <= 4 && Choice(target, unit, y)
    ensures NoWorse(target, unit, AllocatedLots(target, unit), y)
  {
    hide LotsFirst;
    AllocatedIsChosen(target, unit);
    LotsOrder(Reorder(SearchOrder(unit), AllocatedLots(target, unit)), Reorder(SearchOrder(unit), y));
    FourTargetsExhaustive(target, unit);
    FeasibleIffChoice(target, unit, y);
    ExhaustiveIsBest(BookLines(target, unit), |SECTORS|, BEAM_WIDTH, Reorder(SearchOrder(unit), y));
    KeyByProduct(target, unit, AllocatedLots(target, unit));
    KeyByProduct(target, unit, y);
  }

  // ---------------------------------------------------------------- what the objective measures

  lemma {:induction false} ErrorUpdate(target: seq<real>, w: seq<real>, p: nat, v: real)
    requires p < |w| <= |target|
    ensures TargetError(target, w[p := v]) == TargetError(target, w) - Square(w[p] - target[p]) + Square(v - target[p])
    decreases |w|
  {
    hide Square;
    var n := |w| - 1;
    if p < n {
      ErrorUpdate(target, w[..n], p, v);
      assert w[p := v][..n] == w[..n][p := v];
    } else {
      assert w[p := v][..n] == w[..n];
    }
  }

  lemma {:induction false} NetUpdate(w: seq<real>, sec: seq<nat>, p: nat, v: real)
    requires p < |w| <= |sec|
    ensures Total(Net, w[p := v], sec) == Total(Net, w, sec) - w[p] + v
    decreases |w|
  {
    var n := |w| - 1;
    if p < n {
      NetUpdate(w[..n], sec, p, v);
      assert w[p := v][..n] == w[..n][p := v];
    } else {
      assert w[p := v][..n] == w[..n];
    }
  }

  lemma SquareGrows(d: real, u: real)
    ensures Square(d + u) - Square(d) == Times(u, 2.0 * d + u)
  {}

  lemma OneMore(q: int, u: real)
    ensures Times((q + 1) as real, u) == Times(q as real, u) + u
  {}

  /** One more lot changes the objective through its own miss and through the net, each quadratically and with equal weight. */
  lemma ObjectiveOfOneMoreLot(target: seq<real>, unit: seq<real>, x: seq<int>, p: nat)
    requires Complete(target, unit) && |x| == N && p < N
    ensures var w := ProductWeights(unit, x);
      ObjectiveOf(target, unit, x[p := x[p] + 1]) == ObjectiveOf(target, unit, x)
        + Times(unit[p], 2.0 * (w[p] - target[p]) + unit[p])
        + Times(unit[p], 2.0 * Total(Net, w, SECTOR_OF) + unit[p])
  {
    hide Square, Times, TargetError, Total;
    var w, x' := ProductWeights(unit, x), x[p := x[p] + 1];
    var v := w[p] + unit[p];
    OneMore(x[p], unit[p]);
    assert ProductWeights(unit, x') == w[p := v];
    ErrorUpdate(target, w, p, v);
    NetUpdate(w, SECTOR_OF, p, v);
    SquareGrows(w[p] - target[p], unit[p]);
    assert v - target[p] == w[p] - target[p] + unit[p];
    SquareGrows(Total(Net, w, SECTOR_OF), unit[p]);
  }

  lemma {:induction false} ErrorZero(target: seq<real>, w: seq<real>)
    requires |w| <= |target|
    ensures TargetError(target, w) >= 0.0
    ensures TargetError(target, w) == 0.0 <==> forall p :: 0 <= p < |w| ==> w[p] == target[p]
  {
    if w != [] {
      var n := |w| - 1;
      ErrorZero(target, w[..n]);
      SquareSign(w[n] - target[n]);
    }
  }

  lemma SquareSign(x: real)
    ensures Square(x) >= 0.0 && (Square(x) == 0.0 <==> x == 0.0)
  {
    if x < 0.0 {
      SquareReflected(x);
      PositiveSquare(0.0 - x);
    } else if x > 0.0 {
      PositiveSquare(x);
    }
  }

  lemma PositiveSquare(x: real)
    requires x > 0.0
    ensures Square(x) > 0.0
  {
    PositiveProduct(x, x);
    assert Square(x) == Times(x, x);
  }

  lemma PositiveProduct(a: real, b: real)
    requires a > 0.0 && b > 0.0
    ensures Times(a, b) > 0.0
  {}

  lemma SquareReflected(x: real)
    ensures Square(0.0 - x) == Square(x)
  {}

  /** It is never negative, and nothing exactly when the weights are the targets and net to zero. */
  lemma ObjectiveZeroExactly(target: seq<real>, unit: seq<real>, x: seq<int>)
    requires Complete(target, unit) && |x| == N
    ensures ObjectiveOf(target, unit, x) >= 0.0
    ensures ObjectiveOf(target, unit, x) == 0.0 <==>
      ProductWeights(unit, x) == target && Total(Net, target, SECTOR_OF) == 0.0
  {
    hide Square;
    var w := ProductWeights(unit, x);
    ErrorZero(target, w);
    SquareSign(Total(Net, w, SECTOR_OF));
    if forall p :: 0 <= p < N ==> w[p] == target[p] {
      assert w == target;
    }
  }

  // ---------------------------------------------------------------- headroom left by the buffer

  /** Every target's lots rounded toward zero. */
  function TowardZeroLots(target: seq<real>, unit: seq<real>): seq<int>
    requires Complete(target, unit) && PositiveUnits(unit)
  {
    seq(N, p requires 0 <= p < N => TowardZero(target[p] / unit[p], target[p]))
  }

  lemma TowardZeroWeight(target: real, unit: real)
    requires unit > 0.0
    ensures var w := Times(TowardZero(target / unit, target) as real, unit);
      (0.0 <= w <= target || target <= w <= 0.0) && Abs(w - target) <= unit + NEGLIGIBLE
  {
    if Abs(target) > NEGLIGIBLE {
      TruncateBelow(target, unit);
    }
  }

  lemma TowardZeroShrinks(target: seq<real>, unit: seq<real>)
    requires Complete(target, unit) && PositiveUnits(unit)
    ensures ShrinksWeakly(target, ProductWeights(unit, TowardZeroLots(target, unit)))
  {
    var w := ProductWeights(unit, TowardZeroLots(target, unit));
    forall p | 0 <= p < N ensures 0.0 <= w[p] <= target[p] || target[p] <= w[p] <= 0.0 {
      TowardZeroWeight(target[p], unit[p]);
    }
  }

  lemma TowardZeroListed(target: seq<real>, unit: seq<real>)
    requires Allocatable(target, unit)
    requires forall p :: 0 <= p < N ==> Abs(target[p]) <= WeightCaps.BUFFER_LIMITS.product
    ensures forall p :: 0 <= p < N ==> TowardZeroLots(target, unit)[p] in Lots(target, unit, p)
  {
    forall p: nat | p < N ensures TowardZeroLots(target, unit)[p] in Lots(target, unit, p) {
      assert !Oversized(target, unit, p);
      TowardZeroIsOption(target[p], unit[p]);
    }
  }

  /** For a buffered target, rounding toward zero is listed and under the product, sector and gross caps. */
  lemma HeadroomForTowardZero(target: seq<real>, unit: seq<real>)
    requires Allocatable(target, unit) && WeightCaps.MeetsCaps(target, SECTOR_OF, WeightCaps.BUFFER_LIMITS)
    ensures Choice(target, unit, TowardZeroLots(target, unit)) <==>
      StrictlyBelow(Abs(Total(Net, ProductWeights(unit, TowardZeroLots(target, unit)), SECTOR_OF)), NET_CAP)
  {
    var x := TowardZeroLots(target, unit);
    var w := ProductWeights(unit, x);
    TowardZeroShrinks(target, unit);
    TowardZeroListed(target, unit);
    OptionsCarryCaps(target, unit, x);
    ShrinkLowers(Gross, target, w, SECTOR_OF);
    forall s: nat ensures StrictlyBelow(Total(Sector(s), w, SECTOR_OF), SECTOR_CAP) {
      ShrinkLowers(Sector(s), target, w, SECTOR_OF);
    }
  }

  /** And no prefix of it is ever pruned, whatever its net. */
  lemma TowardZeroNeverPruned(target: seq<real>, unit: seq<real>, k: nat)
    requires Allocatable(target, unit) && WeightCaps.MeetsCaps(target, SECTOR_OF, WeightCaps.BUFFER_LIMITS)
    requires k <= N
    ensures Permutation(SearchOrder(unit), N)
    ensures Admits(BookLines(target, unit), |SECTORS|, Reorder(SearchOrder(unit), TowardZeroLots(target, unit))[..k])
  {
    var x := TowardZeroLots(target, unit);
    var w := ProductWeights(unit, x);
    OrderPermutes(unit);
    TowardZeroShrinks(target, unit);
    TowardZeroListed(target, unit);
    OptionsByProduct(target, unit, x);
    ShrinkLowers(Gross, target, w, SECTOR_OF);
    ExposureByProduct(Gross, target, unit, x);
    var lines, q := BookLines(target, unit), Reorder(SearchOrder(unit), x);
    forall s: nat ensures StrictlyBelow(Exposure(Sector(s), lines, q), SECTOR_CAP) {
      ShrinkLowers(Sector(s), target, w, SECTOR_OF);
      ExposureByProduct(Sector(s), target, unit, x);
    }
    TakeAdmits(lines, |SECTORS|, q, k);
  }

  lemma {:induction false} NetGap(w: seq<real>, target: seq<real>, unit: seq<real>, sec: seq<nat>)
    requires |w| == |target| == |unit| <= |sec|
    requires forall i :: 0 <= i < |w| ==> unit[i] > 0.0 && Abs(w[i] - target[i]) <= unit[i] + NEGLIGIBLE
    ensures Abs(Total(Net, w, sec) - Total(Net, target, sec))
         <= Total(Gross, unit, sec) + |w| as real * NEGLIGIBLE
  {
    if w != [] {
      var n := |w| - 1;
      NetGap(w[..n], target[..n], unit[..n], sec);
    }
  }

  /** When one lot of everything weighs less than the net cap, rounding a buffered target toward zero is a choice. */
  lemma SmallLotsLeaveAChoice(target: seq<real>, unit: seq<real>)
    requires Allocatable(target, unit) && WeightCaps.Within(target, SECTOR_OF, WeightCaps.BUFFER_LIMITS)
    requires StrictlyBelow(Total(Gross, unit, SECTOR_OF) + N as real * NEGLIGIBLE, NET_CAP)
    ensures Choice(target, unit, TowardZeroLots(target, unit))
  {
    var w := ProductWeights(unit, TowardZeroLots(target, unit));
    forall p | 0 <= p < N ensures Abs(w[p] - target[p]) <= unit[p] + NEGLIGIBLE {
      TowardZeroWeight(target[p], unit[p]);
    }
    NetGap(w, target, unit, SECTOR_OF);
    HeadroomForTowardZero(target, unit);
  }
}
