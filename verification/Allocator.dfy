/** The integer allocator as it runs, and the report it gives. */
module Allocator {
  import opened RealMath
  import opened Book
  import opened Sorting
  import opened BeamSearch
  import opened BeamOptimality
  import BeamLoops
  import opened AllocatorModel
  import opened AllocationResults
  import WeightCaps

  /** The report says nothing that a recomputation from its quantities would not say. */
  ghost predicate FaithfulReport(target: seq<real>, unit: seq<real>, a: Allocation)
    requires Allocatable(target, unit)
  {
    && |a.quantities| == N
    && a.realized == ProductWeights(unit, a.quantities)
    && a.squaredError == TargetError(target, a.realized)
    && a.residualNet == Total(Net, a.realized, SECTOR_OF)
    && a.gross == Total(Gross, a.realized, SECTOR_OF)
    && a.objective == ObjectiveOf(target, unit, a.quantities)
    && |a.sectorGross| == |SECTORS|
    && forall s: nat :: s < |SECTORS| ==> a.sectorGross[s] == Total(Sector(s), a.realized, SECTOR_OF)
  }

  /** A final state's totals, read in product order. */
  lemma StateReportsByProduct(target: seq<real>, unit: seq<real>, x: seq<int>, st: State)
    requires Allocatable(target, unit) && |x| == N
    requires Permutation(SearchOrder(unit), N)
    requires st == StateFor(BookLines(target, unit), |SECTORS|, Reorder(SearchOrder(unit), x))
    ensures st.sse == TargetError(target, ProductWeights(unit, x))
    ensures st.net == Total(Net, ProductWeights(unit, x), SECTOR_OF)
    ensures st.gross == Total(Gross, ProductWeights(unit, x), SECTOR_OF)
    ensures |st.sectorGross| == |SECTORS|
    ensures forall s: nat :: s < |SECTORS| ==> st.sectorGross[s] == Total(Sector(s), ProductWeights(unit, x), SECTOR_OF)
  {
    ErrorByProduct(target, unit, x);
    ExposureByProduct(Net, target, unit, x);
    ExposureByProduct(Gross, target, unit, x);
    forall s: nat | s < |SECTORS|
      ensures st.sectorGross[s] == Total(Sector(s), ProductWeights(unit, x), SECTOR_OF)
    {
      ExposureByProduct(Sector(s), target, unit, x);
    }
  }

  /** The best finalist is the search's choice, with true totals. */
  lemma BestIsChosen(target: seq<real>, unit: seq<real>, finalists: seq<State>)
    requires Allocatable(target, unit)
    requires finalists == Finalists(Layer(BookLines(target, unit), |SECTORS|, BEAM_WIDTH, N), N) && finalists != []
    ensures Permutation(SearchOrder(unit), N)
    ensures MinBy(finalists, FinalLeq).quantities
         == Chosen(BookLines(target, unit), |SECTORS|, BEAM_WIDTH)
         == Reorder(SearchOrder(unit), AllocatedLots(target, unit))
    ensures MinBy(finalists, FinalLeq)
         == StateFor(BookLines(target, unit), |SECTORS|, Reorder(SearchOrder(unit), AllocatedLots(target, unit)))
  {
    var lines := BookLines(target, unit);
    AllocatedIsChosen(target, unit);
    FinalOrder();
    MinByLeast(finalists, FinalLeq);
    FinalistsExact(Layer(lines, |SECTORS|, BEAM_WIDTH, N), N, MinBy(finalists, FinalLeq));
    LayerGenuine(lines, |SECTORS|, BEAM_WIDTH, N);
  }

  lemma {:induction false} ByProductZero(order: seq<int>)
    ensures ByProduct(order, ZeroLots(|order|)) == ZeroLots(N)
  {
    if order != [] {
      ByProductZero(order[..|order| - 1]);
      assert ZeroLots(|order|)[..|order| - 1] == ZeroLots(|order| - 1);
    }
  }

  lemma {:induction false} ZeroReport(target: seq<real>, unit: seq<real>, sec: seq<nat>, n: nat)
    requires n <= |target| && n <= |unit| && n <= |sec|
    ensures ProductWeights(unit, ZeroLots(n)) == WeightCaps.Zeros(n)
    ensures TargetError(target, WeightCaps.Zeros(n)) == TargetErrorOfNothing(target, n)
  {
    forall p | 0 <= p < n ensures ProductWeights(unit, ZeroLots(n))[p] == 0.0 {}
    if n > 0 {
      ZeroReport(target, unit, sec, n - 1);
      assert WeightCaps.Zeros(n)[..n - 1] == WeightCaps.Zeros(n - 1);
      SquareNegated(target[n - 1]);
    }
  }

  lemma SquareNegated(x: real)
    ensures Square(0.0 - x) == Square(x)
  {}

  /** The sum of the squared targets: the error of holding nothing. */
  function TargetErrorOfNothing(target: seq<real>, n: nat): real
    requires n <= |target|
  {
    if n == 0 then 0.0 else TargetErrorOfNothing(target, n - 1) + Square(target[n - 1])
  }

  function RawLots(target: seq<real>, unit: seq<real>): seq<real>
    requires Complete(target, unit) && PositiveUnits(unit)
  {
    seq(N, p requires 0 <= p < N => target[p] / unit[p])
  }

  /** Ten targets, ten positive lot weights, and no target worth trading of more than 500 lots. */
  lemma AcceptedExactly(target: seq<real>, unit: seq<real>)
    ensures Allocatable(target, unit) <==>
      && |target| == |unit| == 10 && (forall p :: 0 <= p < 10 ==> unit[p] > 0.0)
      && forall p :: 0 <= p < 10 ==> Abs(target[p]) <= 0.00000000000001 || Abs(target[p] / unit[p]) <= 500.0
  {
    if Complete(target, unit) && PositiveUnits(unit) {
      forall p | 0 <= p < 10
        ensures !Oversized(target, unit, p) <==> Abs(target[p]) <= 0.00000000000001 || Abs(target[p] / unit[p]) <= 500.0
      {}
    }
  }

  /** The allocator: refuses bad input, searches, and reports the best finalist or nothing held. */
  method JointIntegerAllocate(target: seq<real>, unit: seq<real>) returns (r: Result)
    ensures r.Allocated? <==> Allocatable(target, unit)
    ensures r.Allocated? <==>
      && |target| == |unit| == 10 && (forall p :: 0 <= p < 10 ==> unit[p] > 0.0)
      && forall p :: 0 <= p < 10 ==> Abs(target[p]) <= 0.00000000000001 || Abs(target[p] / unit[p]) <= 500.0
    ensures r.Allocated? ==>
      && r.a.quantities == AllocatedLots(target, unit)
      && FaithfulReport(target, unit, r.a)
      && Nearby(target, unit, r.a.quantities)
    ensures r.Allocated? && ActiveTargets(target, Indices(N)) <= 4 ==>
      forall y :: Nearby(target, unit, y) ==> NoWorse(target, unit, r.a.quantities, y)
    ensures r.Allocated? ==>
      && r.a.raw == RawLots(target, unit)
      && r.a.statesRetained == |Layer(BookLines(target, unit), |SECTORS|, 2048, N)|
  {
    hide Choice, Nearby, NoWorse, FaithfulReport, AllocatedLots, ActiveTargets, Finalists, Layer, MinBy;
    AcceptedExactly(target, unit);
    if |target| != N || |unit| != N {
      return Rejected("integer allocator input is incomplete");
    }
    if exists p :: 0 <= p < N && unit[p] <= 0.0 {
      return Rejected("integer allocator unit weight is invalid");
    }
    if exists p :: 0 <= p < N && Oversized(target, unit, p) {
      return Rejected("raw target quantity exceeds the frozen absolute lot cap");
    }
    var raw := RawLots(target, unit);
    var lines := BookLines(target, unit);
    AllocationSafe(target, unit);
    ChoiceExact(target, unit, AllocatedLots(target, unit));
    if ActiveTargets(target, Indices(N)) <= 4 {
      forall y | Nearby(target, unit, y) ensures NoWorse(target, unit, AllocatedLots(target, unit), y) {
        FourTargetsOptimal(target, unit, y);
      }
    }
    var order := SearchOrder(unit);
    var states := BeamLoops.SearchBeam(lines, |SECTORS|, BEAM_WIDTH);
    var finalists := Finalists(states, N);
    var rounds := |states|;
    if finalists == [] {
      FallbackReport(target, unit, raw, rounds);
      return Allocated(NothingHeld(target, raw, rounds));
    }
    BestReport(target, unit, finalists, raw, rounds);
    r := Allocated(ReportOf(unit, order, MinBy(finalists, FinalLeq), raw, rounds));
  }

  /** The report of holding nothing. */
  function NothingHeld(target: seq<real>, raw: seq<real>, rounds: nat): Allocation
    requires N <= |target|
  {
    var error := TargetErrorOfNothing(target, N);
    Allocation(ZeroLots(N), raw, WeightCaps.Zeros(N), error, 0.0, error, 0.0, WeightCaps.Zeros(|SECTORS|), rounds)
  }

  /** The report of a final state, with the totals it carried through the search. */
  function ReportOf(unit: seq<real>, order: seq<int>, best: State, raw: seq<real>, rounds: nat): Allocation
    requires |best.quantities| == |order| && |ByProduct(order, best.quantities)| <= |unit|
  {
    var quantities := ByProduct(order, best.quantities);
    Allocation(quantities, raw, ProductWeights(unit, quantities), best.sse, best.net,
               best.sse + Square(best.net), best.gross, best.sectorGross, rounds)
  }

  lemma FallbackReport(target: seq<real>, unit: seq<real>, raw: seq<real>, rounds: nat)
    requires Allocatable(target, unit)
    requires Finalists(Layer(BookLines(target, unit), |SECTORS|, BEAM_WIDTH, N), N) == []
    ensures AllocatedLots(target, unit) == ZeroLots(N)
    ensures FaithfulReport(target, unit, NothingHeld(target, raw, rounds))
  {
    ByProductZero(SearchOrder(unit));
    OrderPermutes(unit);
    ZeroReport(target, unit, SECTOR_OF, N);
    FallbackTotals(target, unit);
  }

  lemma BestReport(target: seq<real>, unit: seq<real>, finalists: seq<State>, raw: seq<real>, rounds: nat)
    requires Allocatable(target, unit)
    requires finalists == Finalists(Layer(BookLines(target, unit), |SECTORS|, BEAM_WIDTH, N), N) && finalists != []
    ensures var best := MinBy(finalists, FinalLeq);
      && |best.quantities| == |SearchOrder(unit)|
      && ByProduct(SearchOrder(unit), best.quantities) == AllocatedLots(target, unit)
      && FaithfulReport(target, unit, ReportOf(unit, SearchOrder(unit), best, raw, rounds))
  {
    hide Total, TargetError, Finalists, MinBy;
    BestIsChosen(target, unit, finalists);
    StateReportsByProduct(target, unit, AllocatedLots(target, unit), MinBy(finalists, FinalLeq));
  }

  lemma FallbackTotals(target: seq<real>, unit: seq<real>)
    requires Complete(target, unit)
    ensures ProductWeights(unit, ZeroLots(N)) == WeightCaps.Zeros(N)
    ensures forall m: Measure :: Total(m, WeightCaps.Zeros(N), SECTOR_OF) == 0.0
    ensures ObjectiveOf(target, unit, ZeroLots(N)) == TargetErrorOfNothing(target, N)
  {
    ZeroReport(target, unit, SECTOR_OF, N);
    forall m: Measure ensures Total(m, WeightCaps.Zeros(N), SECTOR_OF) == 0.0 {
      WeightCaps.ZeroTotals(m, N, SECTOR_OF);
    }
  }

  /** The all-zero fallback is returned for lack of finalists only when the beam cut something off. */
  lemma FallbackMeansTruncation(target: seq<real>, unit: seq<real>)
    requires Allocatable(target, unit)
    requires Finalists(Layer(BookLines(target, unit), |SECTORS|, BEAM_WIDTH, N), N) == []
    ensures ActiveTargets(target, Indices(N)) > 4
  {
    FallbackNeedsTruncation(BookLines(target, unit), |SECTORS|, BEAM_WIDTH);
    if ActiveTargets(target, Indices(N)) <= 4 {
      FourTargetsExhaustive(target, unit);
    }
  }
}
