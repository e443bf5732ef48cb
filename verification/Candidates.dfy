/** The lot options of one product: a neighbourhood of the raw quantity, kept on the target's side and under the caps. */
module Candidates {
  import opened RealMath
  import opened BeamSearch

  const RADIUS := 2  // lots on either side of the nearest one
  const MAX_LOTS := 500
  const PRODUCT_CAP := 0.15
  const NEGLIGIBLE := 0.00000000000001

  datatype Options = Options(lots: seq<int>) | Refused(message: string)

  /** Strictly ascending listing of the members of `s` from `lo` to `hi`. */
  function Ascending(s: set<int>, lo: int, hi: int): (r: seq<int>)
    ensures forall x :: x in r <==> x in s && lo <= x <= hi
    ensures forall i, j :: 0 <= i < j < |r| ==> r[i] < r[j]
    decreases hi - lo + 1
  {
    if lo > hi then []
    else
      var rest := Ascending(s, lo + 1, hi);
      assert forall i :: 0 <= i < |rest| ==> rest[i] in rest;
      if lo in s then [lo] + rest else rest
  }

  function Neighbourhood(raw: real): set<int> {
    var centre := RoundHalfEven(raw);
    {centre - 2, centre - 1, centre, centre + 1, centre + 2} + {0, Trunc(raw), raw.Floor, Ceil(raw)}
  }

  predicate OnSide(target: real, q: int) { if target > 0.0 then q >= 0 else q <= 0 }

  predicate UnderProductCap(q: int, unit: real) { StrictlyBelow(Abs(Times(q as real, unit)), PRODUCT_CAP) }

  predicate WithinLots(q: int) { -MAX_LOTS <= q <= MAX_LOTS }

  function CandidateQuantities(raw: real, target: real, unit: real): Options {
    if unit <= 0.0 then Refused("integer allocator unit weight must be positive")
    else if Abs(target) <= NEGLIGIBLE then Options([0])
    else if Abs(raw) > MAX_LOTS as real then Refused("raw target quantity exceeds the frozen absolute lot cap")
    else
      var values := set q | q in Neighbourhood(raw) && OnSide(target, q) && WithinLots(q) && UnderProductCap(q, unit);
      Options(Ascending(values + {0}, -MAX_LOTS, MAX_LOTS))
  }

  /** Every option is safe on its own: on the target's side, within 500 lots, strictly under the product cap. */
  lemma OptionsSafe(raw: real, target: real, unit: real, q: int)
    requires CandidateQuantities(raw, target, unit).Options?
    requires q in CandidateQuantities(raw, target, unit).lots
    ensures OnSide(target, q) && WithinLots(q) && UnderProductCap(q, unit)
    ensures Abs(target) <= NEGLIGIBLE ==> q == 0
  {}

  /** Doing nothing is always an option, and options are listed in order without repeats. */
  lemma OptionsListed(raw: real, target: real, unit: real)
    requires CandidateQuantities(raw, target, unit).Options?
    ensures var r := CandidateQuantities(raw, target, unit).lots;
      0 in r && forall i, j :: 0 <= i < j < |r| ==> r[i] < r[j]
  {}

  /** A non-zero lot count that belongs among the options, said without how they are built. */
  predicate Close(raw: real, q: int) {
    var gap := Abs(q as real - raw);
    gap < 2.5 || (gap == 2.5 && q % 2 == 0)
  }

  lemma NeighbourhoodExact(raw: real, q: int)
    ensures q in Neighbourhood(raw) <==> q == 0 || Close(raw, q)
  {
    var c := RoundHalfEven(raw);
    RoundingsAdjacent(raw);
    HalfwayIsEven(raw);
    assert q in Neighbourhood(raw) <==> q == 0 || c - RADIUS <= q <= c + RADIUS;
  }

  lemma HalfwayIsEven(raw: real)
    ensures var c := RoundHalfEven(raw);
      -0.5 <= c as real - raw <= 0.5 && (c as real - raw == 0.5 || c as real - raw == -0.5 ==> c % 2 == 0)
  {}

  /**
   The options, lot by lot: zero, and exactly the lots less than two and a half from the raw quantity (or exactly two
   and a half and even) that are on the target's side, at most 500, and lighter than the strict product cap.
   */
  lemma ListedExactly(raw: real, target: real, unit: real, q: int)
    requires CandidateQuantities(raw, target, unit).Options? && Abs(target) > NEGLIGIBLE
    ensures q in CandidateQuantities(raw, target, unit).lots <==>
      q == 0 || (Close(raw, q) && (if target > 0.0 then q > 0 else q < 0) && -500 <= q <= 500
                 && Abs(Times(q as real, unit)) < 0.15 - 0.000000000001)
  {
    NeighbourhoodExact(raw, q);
  }

  /** Rounding either way lands next to the nearest lot. */
  lemma RoundingsAdjacent(raw: real)
    ensures var c := RoundHalfEven(raw);
      c - 1 <= raw.Floor <= c + 1 && c - 1 <= Ceil(raw) <= c + 1 && c - 1 <= Trunc(raw) <= c + 1
  {}

  lemma {:induction false} AscendingFits(r: seq<int>, lo: int, hi: int)
    requires forall i, j :: 0 <= i < j < |r| ==> r[i] < r[j]
    requires forall x :: x in r ==> lo <= x <= hi
    requires lo <= hi + 1
    ensures |r| <= hi - lo + 1
    decreases |r|
  {
    if r != [] {
      var n := |r| - 1;
      assert r[n] in r;
      forall x | x in r[..n] ensures lo <= x <= r[n] - 1 {
        assert x in r;
      }
      AscendingFits(r[..n], lo, r[n] - 1);
    }
  }

  /** Never more than six options: five neighbours and zero. */
  lemma AtMostSix(raw: real, target: real, unit: real)
    requires CandidateQuantities(raw, target, unit).Options?
    ensures |CandidateQuantities(raw, target, unit).lots| <= 6
    ensures Abs(target) <= NEGLIGIBLE ==> |CandidateQuantities(raw, target, unit).lots| == 1
  {
    if Abs(target) > NEGLIGIBLE {
      var r, c := CandidateQuantities(raw, target, unit).lots, RoundHalfEven(raw);
      RoundingsAdjacent(raw);
      forall q | q in r ensures q == 0 || c - RADIUS <= q <= c + RADIUS {
        assert q == 0 || q in Neighbourhood(raw);
      }
      SixSlots(r, c);
    }
  }

  lemma SixSlots(r: seq<int>, c: int)
    requires forall i, j :: 0 <= i < j < |r| ==> r[i] < r[j]
    requires forall q :: q in r ==> q == 0 || c - RADIUS <= q <= c + RADIUS
    ensures |r| <= 6
  {
    if 0 in r {
      var i :| 0 <= i < |r| && r[i] == 0;
      assert |r| == |r[..i] + r[i + 1..]| + 1;
      WithoutZero(r, i, c);
      AscendingFits(r[..i] + r[i + 1..], c - RADIUS, c + RADIUS);
    } else {
      AscendingFits(r, c - RADIUS, c + RADIUS);
    }
  }

  lemma WithoutZero(r: seq<int>, i: nat, c: int)
    requires i < |r| && r[i] == 0
    requires forall i, j :: 0 <= i < j < |r| ==> r[i] < r[j]
    requires forall q :: q in r ==> q == 0 || c - RADIUS <= q <= c + RADIUS
    ensures var rest := r[..i] + r[i + 1..];
      && (forall i, j :: 0 <= i < j < |rest| ==> rest[i] < rest[j])
      && (forall q :: q in rest ==> c - RADIUS <= q <= c + RADIUS)
  {
    var rest := r[..i] + r[i + 1..];
    forall q | q in rest ensures c - RADIUS <= q <= c + RADIUS {
      var j :| 0 <= j < |rest| && rest[j] == q;
      var at := if j < i then j else j + 1;
      assert q == r[at] && r[at] in r;
      assert if at < i then r[at] < r[i] else r[i] < r[at];
    }
  }

  /** The lots of a target rounded toward zero; a negligible target gets none. */
  function TowardZero(raw: real, target: real): int {
    if Abs(target) <= NEGLIGIBLE then 0 else Trunc(raw)
  }

  /** Rounding toward zero never overshoots the target, and misses it by less than one lot. */
  lemma TruncateBelow(target: real, unit: real)
    requires unit > 0.0
    ensures var w := Times(Trunc(target / unit) as real, unit);
      (0.0 <= w <= target || target <= w <= 0.0) && -unit < w - target < unit
  {
    var raw := target / unit;
    var t := Trunc(raw) as real;
    assert Times(raw, unit) == target;
    if raw >= 0.0 {
      MulMonotone(0.0, t, unit);
      MulMonotone(t, raw, unit);
      OneLotShort(raw, t, unit);
    } else {
      MulMonotone(t, 0.0, unit);
      MulMonotone(raw, t, unit);
      OneLotShort(t, raw, unit);
    }
  }

  lemma OneLotShort(a: real, b: real, unit: real)
    requires unit > 0.0 && 0.0 <= a - b < 1.0
    ensures Times(a, unit) - Times(b, unit) < unit
  {
    var rest := 1.0 - (a - b);
    assert rest * unit > 0.0;
    assert Times(a, unit) - Times(b, unit) == unit - rest * unit by { Expand(a, b, unit); }
  }

  lemma Expand(a: real, b: real, unit: real)
    ensures Times(a, unit) - Times(b, unit) == unit - (1.0 - (a - b)) * unit
  {}

  /** A target inside the strict product cap keeps its toward-zero rounding among the options. */
  lemma TowardZeroIsOption(target: real, unit: real)
    requires unit > 0.0 && CandidateQuantities(target / unit, target, unit).Options?
    requires StrictlyBelow(Abs(target), PRODUCT_CAP)
    ensures TowardZero(target / unit, target) in CandidateQuantities(target / unit, target, unit).lots
  {
    if Abs(target) > NEGLIGIBLE {
      var q := Trunc(target / unit);
      TruncateBelow(target, unit);
      SignOfRatio(target, unit);
      assert q in Neighbourhood(target / unit);
      assert WithinLots(q);
    }
  }

  lemma SignOfRatio(target: real, unit: real)
    requires unit > 0.0
    ensures target > 0.0 ==> target / unit > 0.0
    ensures target < 0.0 ==> target / unit < 0.0
  {}
}
