/**
 The weight-cap pipeline of the producer kernel: raw risk scores are centred, split into two
 equal legs, clipped per product, shrunk per sector and on gross, and rebalanced to zero net;
 a tighter shrink-only buffer follows.
 */
module WeightCaps {
  import opened RealMath
  import opened Book

  datatype Limits = Limits(product: real, sector: real, gross: real)

  const SOURCE_LIMITS := Limits(0.20, 0.35, 1.00)
  const BUFFER_LIMITS := Limits(0.12, 0.27, 0.80)

  datatype Outcome = Weights(w: seq<real>) | Failed(message: string)

  ghost predicate Positive(l: Limits) { l.product > 0.0 && l.sector > 0.0 && l.gross > 0.0 }

  ghost predicate MeetsCaps(w: seq<real>, sec: seq<nat>, l: Limits)
    requires |w| <= |sec|
  {
    && (forall i :: 0 <= i < |w| ==> Abs(w[i]) <= l.product)
    && (forall s: nat :: Total(Sector(s), w, sec) <= l.sector)
    && Total(Gross, w, sec) <= l.gross
  }

  /** Every cap met exactly and no net exposure at all. */
  ghost predicate Within(w: seq<real>, sec: seq<nat>, l: Limits)
    requires |w| <= |sec|
  {
    MeetsCaps(w, sec, l) && Total(Net, w, sec) == 0.0
  }

  // ---------------------------------------------------------------- stages

  function Zeros(n: nat): seq<real> { seq(n, i => 0.0) }

  function Mean(w: seq<real>, sec: seq<nat>): real
    requires 0 < |w| <= |sec|
  {
    Total(Net, w, sec) / |w| as real
  }

  function Centred(w: seq<real>, sec: seq<nat>): (r: seq<real>)
    requires 0 < |w| <= |sec|
    ensures |r| == |w|
  {
    var mean := Mean(w, sec);
    seq(|w|, i requires 0 <= i < |w| => w[i] - mean)
  }

  function ScaleLeg(v: real, up: real, down: real): real {
    if v > 0.0 then Times(v, up) else if v < 0.0 then Times(v, down) else 0.0
  }

  /** Rescales the long leg by `up` and the short leg by `down`. */
  function ScaleLegs(w: seq<real>, up: real, down: real): (r: seq<real>)
    ensures |r| == |w|
  {
    seq(|w|, i requires 0 <= i < |w| => ScaleLeg(w[i], up, down))
  }

  function ClipOne(v: real, cap: real): real {
    if v > cap then cap else if v < -cap then -cap else v
  }

  function Clip(w: seq<real>, cap: real): (r: seq<real>)
    ensures |r| == |w|
  {
    seq(|w|, i requires 0 <= i < |w| => ClipOne(w[i], cap))
  }

  function Scale(gross: real, cap: real): real {
    if gross > cap && gross > 0.0 then cap / gross else 1.0
  }

  /** All sectors shrunk at once, each by its own factor. */
  function ShrinkSectors(w: seq<real>, sec: seq<nat>, cap: real): seq<real>
    requires |w| <= |sec|
  {
    seq(|w|, i requires 0 <= i < |w| => Times(w[i], Scale(Total(Sector(sec[i]), w, sec), cap)))
  }

  function ShrinkGross(w: seq<real>, sec: seq<nat>, cap: real): seq<real>
    requires |w| <= |sec|
  {
    var c := Scale(Total(Gross, w, sec), cap);
    ScaleLegs(w, c, c)
  }

  function Min(a: real, b: real): real { if a <= b then a else b }

  /** Scales the heavier leg down to the lighter one. */
  function Balance(w: seq<real>, sec: seq<nat>): (r: seq<real>)
    requires |w| <= |sec|
    requires Total(Long, w, sec) > 0.0 && Total(Short, w, sec) > 0.0
    ensures |r| == |w|
  {
    var long, short := Total(Long, w, sec), Total(Short, w, sec);
    var lighter := Min(long, short);
    ScaleLegs(w, lighter / long, lighter / short)
  }

  function Capped(w: seq<real>, sec: seq<nat>, l: Limits): seq<real>
    requires |w| <= |sec|
  {
    ShrinkGross(ShrinkSectors(Clip(w, l.product), sec, l.sector), sec, l.gross)
  }

  ghost predicate HasSignal(raw: seq<real>, sec: seq<nat>)
    requires 0 < |raw| <= |sec|
  {
    Total(Long, Centred(raw, sec), sec) > 0.000000000001 && Total(Short, Centred(raw, sec), sec) > 0.000000000001
  }

  /** The 50/50 leg weights the caps start from. */
  ghost function Legs(raw: seq<real>, sec: seq<nat>): (r: seq<real>)
    requires 0 < |raw| <= |sec| && HasSignal(raw, sec)
    ensures |r| == |raw|
  {
    var c := Centred(raw, sec);
    ScaleLegs(c, 0.5 / Total(Long, c, sec), 0.5 / Total(Short, c, sec))
  }

  /** The whole first stage, stage by stage; CapSourceWeights computes it with in-place loops. */
  ghost function CapSource(raw: seq<real>, sec: seq<nat>, l: Limits): seq<real>
    requires 0 < |raw| <= |sec| && Positive(l)
  {
    if HasSignal(raw, sec) then
      CappedLegsSurvive(raw, sec, l);
      Balance(Capped(Legs(raw, sec), sec, l), sec)
    else Zeros(|raw|)
  }

  /** The buffer stage. */
  ghost function Buffer(w: seq<real>, sec: seq<nat>, l: Limits): seq<real>
    requires |w| <= |sec|
  {
    var c := Capped(w, sec, l);
    if Min(Total(Long, c, sec), Total(Short, c, sec)) <= 0.00000000000001 then Zeros(|w|)
    else Balance(c, sec)
  }

  // ---------------------------------------------------------------- what each stage keeps

  lemma ScaleBounds(gross: real, cap: real)
    requires cap > 0.0
    ensures 0.0 < Scale(gross, cap) <= 1.0
  {
    if gross > cap {
      RatioBounds(cap, gross);
    }
  }

  lemma ScaledBelow(gross: real, cap: real, r: real)
    requires cap > 0.0 && gross >= 0.0 && IsScaled(Scale(gross, cap), gross, r)
    ensures r == Min(gross, cap)
  {
    if gross > cap {
      RatioScales(cap, gross, r);
    }
  }

  lemma ScaleLegShrinks(v: real, up: real, down: real)
    requires 0.0 < up <= 1.0 && 0.0 < down <= 1.0
    ensures v > 0.0 ==> 0.0 < ScaleLeg(v, up, down) <= v
    ensures v < 0.0 ==> v <= ScaleLeg(v, up, down) < 0.0
    ensures v == 0.0 ==> ScaleLeg(v, up, down) == 0.0
  {
    if v > 0.0 {
      MulMonotone(up, 1.0, v);
    } else if v < 0.0 {
      MulMonotone(down, 1.0, -v);
    }
  }

  lemma ScaleLegsShrinks(w: seq<real>, up: real, down: real)
    requires 0.0 < up <= 1.0 && 0.0 < down <= 1.0
    ensures Shrinks(w, ScaleLegs(w, up, down))
  {
    var r := ScaleLegs(w, up, down);
    forall i | 0 <= i < |w|
      ensures (0.0 <= r[i] <= w[i] || w[i] <= r[i] <= 0.0) && (w[i] != 0.0 ==> r[i] != 0.0)
    {
      ScaleLegShrinks(w[i], up, down);
    }
  }

  lemma ScaleLegParts(v: real, s: nat, up: real, down: real)
    requires 0.0 <= up && 0.0 <= down
    ensures IsScaled(up, Contribution(Long, v, s), Contribution(Long, ScaleLeg(v, up, down), s))
    ensures IsScaled(down, Contribution(Short, v, s), Contribution(Short, ScaleLeg(v, up, down), s))
  {
    if v > 0.0 {
      MulMonotone(0.0, v, up);
    } else if v < 0.0 {
      MulMonotone(v, 0.0, down);
    }
  }

  lemma ScaleLegsTotals(w: seq<real>, sec: seq<nat>, up: real, down: real)
    requires |w| <= |sec| && 0.0 <= up && 0.0 <= down
    ensures IsScaled(up, Total(Long, w, sec), Total(Long, ScaleLegs(w, up, down), sec))
    ensures IsScaled(down, Total(Short, w, sec), Total(Short, ScaleLegs(w, up, down), sec))
  {
    var r := ScaleLegs(w, up, down);
    forall i | 0 <= i < |w|
      ensures IsScaled(up, Contribution(Long, w[i], sec[i]), Contribution(Long, r[i], sec[i]))
      ensures IsScaled(down, Contribution(Short, w[i], sec[i]), Contribution(Short, r[i], sec[i]))
    {
      ScaleLegParts(w[i], sec[i], up, down);
    }
    TotalScaled(Long, w, r, sec, up);
    TotalScaled(Short, w, r, sec, down);
  }

  lemma ShrinkSectorsShrinks(w: seq<real>, sec: seq<nat>, cap: real)
    requires |w| <= |sec| && cap > 0.0
    ensures Shrinks(w, ShrinkSectors(w, sec, cap))
  {
    var r := ShrinkSectors(w, sec, cap);
    forall i | 0 <= i < |w|
      ensures (0.0 <= r[i] <= w[i] || w[i] <= r[i] <= 0.0) && (w[i] != 0.0 ==> r[i] != 0.0)
    {
      var c := Scale(Total(Sector(sec[i]), w, sec), cap);
      ScaleBounds(Total(Sector(sec[i]), w, sec), cap);
      ScaleLegShrinks(w[i], c, c);
    }
  }

  lemma AbsScaled(v: real, c: real)
    requires 0.0 <= c
    ensures IsScaled(c, Abs(v), Abs(v * c))
  {
    if v >= 0.0 {
      MulMonotone(0.0, v, c);
    } else {
      MulMonotone(v, 0.0, c);
    }
  }

  lemma {:induction false} SectorScaled(w: seq<real>, r: seq<real>, sec: seq<nat>, s: nat, c: real)
    requires |w| == |r| <= |sec| && 0.0 <= c
    requires forall i :: 0 <= i < |w| && sec[i] == s ==> IsScaled(c, w[i], r[i])
    ensures IsScaled(c, Total(Sector(s), w, sec), Total(Sector(s), r, sec))
  {
    forall i | 0 <= i < |w|
      ensures IsScaled(c, Contribution(Sector(s), w[i], sec[i]), Contribution(Sector(s), r[i], sec[i]))
    {
      SectorTermScaled(w[i], r[i], sec[i], s, c);
    }
    TotalScaled(Sector(s), w, r, sec, c);
  }

  lemma SectorTermScaled(v: real, r: real, id: nat, s: nat, c: real)
    requires 0.0 <= c
    requires id == s ==> IsScaled(c, v, r)
    ensures IsScaled(c, Contribution(Sector(s), v, id), Contribution(Sector(s), r, id))
  {
    if id == s {
      AbsScaled(v, c);
    }
  }

  /** A sector over its cap lands exactly on it; any other sector keeps its gross. */
  lemma SectorsMeetCapExactly(w: seq<real>, sec: seq<nat>, cap: real, s: nat)
    requires |w| <= |sec| && cap > 0.0
    ensures Total(Sector(s), ShrinkSectors(w, sec, cap), sec) == Min(Total(Sector(s), w, sec), cap)
  {
    var g, r := Total(Sector(s), w, sec), ShrinkSectors(w, sec, cap);
    TotalNonNegative(Sector(s), w, sec);
    ScaleBounds(g, cap);
    SectorShrunk(w, sec, cap, s);
    ScaledBelow(g, cap, Total(Sector(s), r, sec));
  }

  lemma SectorShrunk(w: seq<real>, sec: seq<nat>, cap: real, s: nat)
    requires |w| <= |sec| && cap > 0.0
    ensures IsScaled(Scale(Total(Sector(s), w, sec), cap), Total(Sector(s), w, sec),
                     Total(Sector(s), ShrinkSectors(w, sec, cap), sec))
  {
    var g := Total(Sector(s), w, sec);
    ScaleBounds(g, cap);
    forall i | 0 <= i < |w| && sec[i] == s
      ensures IsScaled(Scale(g, cap), w[i], ShrinkSectors(w, sec, cap)[i])
    {
      MemberShrunk(w, sec, cap, i);
    }
    SectorScaled(w, ShrinkSectors(w, sec, cap), sec, s, Scale(g, cap));
  }

  lemma MemberShrunk(w: seq<real>, sec: seq<nat>, cap: real, i: nat)
    requires i < |w| <= |sec|
    ensures IsScaled(Scale(Total(Sector(sec[i]), w, sec), cap), w[i], ShrinkSectors(w, sec, cap)[i])
  {}

  lemma ShrinksTransitive(a: seq<real>, b: seq<real>, c: seq<real>)
    requires Shrinks(a, b) && Shrinks(b, c)
    ensures Shrinks(a, c)
  {}

  /** The three cap stages only shrink, keep signs, and leave every cap met. */
  lemma CappedWithinCaps(w: seq<real>, sec: seq<nat>, l: Limits)
    requires |w| <= |sec| && Positive(l)
    ensures Shrinks(w, Capped(w, sec, l))
    ensures MeetsCaps(Capped(w, sec, l), sec, l)
  {
    var a := Clip(w, l.product);
    var b := ShrinkSectors(a, sec, l.sector);
    var c := Capped(w, sec, l);
    var g := Total(Gross, b, sec);
    assert Shrinks(w, a);
    ShrinkSectorsShrinks(a, sec, l.sector);
    ScaleBounds(g, l.gross);
    ScaleLegsShrinks(b, Scale(g, l.gross), Scale(g, l.gross));
    ShrinksTransitive(w, a, b);
    ShrinksTransitive(w, b, c);
    ShrinksTransitive(a, b, c);
    forall s: nat ensures Total(Sector(s), c, sec) <= l.sector {
      SectorsMeetCapExactly(a, sec, l.sector, s);
      ShrinkLowers(Sector(s), b, c, sec);
    }
    GrossMeetsCapExactly(b, sec, l.gross);
  }

  lemma GrossMeetsCapExactly(w: seq<real>, sec: seq<nat>, cap: real)
    requires |w| <= |sec| && cap > 0.0
    ensures Total(Gross, ShrinkGross(w, sec, cap), sec) == Min(Total(Gross, w, sec), cap)
  {
    var g := Total(Gross, w, sec);
    var c := Scale(g, cap);
    ScaleBounds(g, cap);
    TotalNonNegative(Gross, w, sec);
    GrossOfScaled(w, sec, c);
    ScaledBelow(g, cap, Total(Gross, ScaleLegs(w, c, c), sec));
  }

  lemma GrossOfScaled(w: seq<real>, sec: seq<nat>, c: real)
    requires |w| <= |sec| && c >= 0.0
    ensures IsScaled(c, Total(Gross, w, sec), Total(Gross, ScaleLegs(w, c, c), sec))
  {
    var r := ScaleLegs(w, c, c);
    ScaleLegsTotals(w, sec, c, c);
    LegsSplit(w, sec);
    LegsSplit(r, sec);
    ScaledSum(c, Total(Long, w, sec), Total(Short, w, sec), Total(Long, r, sec), Total(Short, r, sec));
  }

  /** Balancing keeps the caps, shrinks, and ends with two equal legs. */
  lemma BalanceExact(w: seq<real>, sec: seq<nat>)
    requires |w| <= |sec| && Total(Long, w, sec) > 0.0 && Total(Short, w, sec) > 0.0
    ensures Shrinks(w, Balance(w, sec))
    ensures Total(Net, Balance(w, sec), sec) == 0.0
    ensures Total(Long, Balance(w, sec), sec) == Total(Short, Balance(w, sec), sec)
         == Min(Total(Long, w, sec), Total(Short, w, sec))
  {
    var long, short := Total(Long, w, sec), Total(Short, w, sec);
    var lighter := Min(long, short);
    RatioBounds(lighter, long);
    RatioBounds(lighter, short);
    var up, down := lighter / long, lighter / short;
    ScaledLegsFacts(w, sec, up, down);
    var r := ScaleLegs(w, up, down);
    RatioScales(lighter, long, Total(Long, r, sec));
    RatioScales(lighter, short, Total(Short, r, sec));
  }

  lemma ScaledLegsFacts(w: seq<real>, sec: seq<nat>, up: real, down: real)
    requires |w| <= |sec| && 0.0 < up <= 1.0 && 0.0 < down <= 1.0
    ensures var r := ScaleLegs(w, up, down);
      && Shrinks(w, r)
      && IsScaled(up, Total(Long, w, sec), Total(Long, r, sec))
      && IsScaled(down, Total(Short, w, sec), Total(Short, r, sec))
      && Total(Net, r, sec) == Total(Long, r, sec) - Total(Short, r, sec)
  {
    ScaleLegsShrinks(w, up, down);
    ScaleLegsTotals(w, sec, up, down);
    LegsSplit(ScaleLegs(w, up, down), sec);
  }

  lemma ShrunkMeetsCaps(c: seq<real>, r: seq<real>, sec: seq<nat>, l: Limits)
    requires |c| <= |sec| && MeetsCaps(c, sec, l) && ShrinksWeakly(c, r)
    ensures MeetsCaps(r, sec, l)
  {
    ShrinkLowers(Gross, c, r, sec);
    forall s: nat ensures Total(Sector(s), r, sec) <= l.sector {
      ShrinkLowers(Sector(s), c, r, sec);
    }
  }

  lemma WithinAfterBalance(w: seq<real>, c: seq<real>, sec: seq<nat>, l: Limits)
    requires |w| <= |sec| && Shrinks(w, c) && MeetsCaps(c, sec, l)
    requires Total(Long, c, sec) > 0.0 && Total(Short, c, sec) > 0.0
    ensures Within(Balance(c, sec), sec, l)
    ensures Shrinks(w, Balance(c, sec))
  {
    BalanceExact(c, sec);
    ShrinksTransitive(w, c, Balance(c, sec));
    ShrunkMeetsCaps(c, Balance(c, sec), sec, l);
  }

  lemma {:induction false} ZeroTotals(m: Measure, n: nat, sec: seq<nat>)
    requires n <= |sec|
    ensures Total(m, Zeros(n), sec) == 0.0
  {
    if n > 0 {
      ZeroTotals(m, n - 1, sec);
      assert Zeros(n)[..n - 1] == Zeros(n - 1);
    }
  }

  lemma ZerosWithin(n: nat, sec: seq<nat>, l: Limits)
    requires n <= |sec| && Positive(l)
    ensures Within(Zeros(n), sec, l)
  {
    forall s: nat ensures Total(Sector(s), Zeros(n), sec) <= l.sector { ZeroTotals(Sector(s), n, sec); }
    ZeroTotals(Gross, n, sec);
    ZeroTotals(Net, n, sec);
  }

  // ---------------------------------------------------------------- the source stage

  /** Both legs of the starting weights weigh exactly one half. */
  lemma LegsHalf(raw: seq<real>, sec: seq<nat>)
    requires 0 < |raw| <= |sec| && HasSignal(raw, sec)
    ensures Total(Long, Legs(raw, sec), sec) == 0.5 && Total(Short, Legs(raw, sec), sec) == 0.5
    ensures Total(Gross, Legs(raw, sec), sec) == 1.0
  {
    var c := Centred(raw, sec);
    var long, short := Total(Long, c, sec), Total(Short, c, sec);
    assert long * (0.5 / long) == 0.5 && short * (0.5 / short) == 0.5;
    ScaleLegsTotals(c, sec, 0.5 / long, 0.5 / short);
    LegsSplit(Legs(raw, sec), sec);
  }

  /** The caps can never remove a leg: the "removed one portfolio leg" error cannot occur. */
  lemma CappedLegsSurvive(raw: seq<real>, sec: seq<nat>, l: Limits)
    requires 0 < |raw| <= |sec| && HasSignal(raw, sec) && Positive(l)
    ensures Total(Long, Capped(Legs(raw, sec), sec, l), sec) > 0.0
    ensures Total(Short, Capped(Legs(raw, sec), sec, l), sec) > 0.0
  {
    var w := Legs(raw, sec);
    var c := Capped(w, sec, l);
    LegsHalf(raw, sec);
    CappedWithinCaps(w, sec, l);
    var i := LegMember(Long, w, sec);
    LegPositive(Long, c, sec, i);
    var j := LegMember(Short, w, sec);
    LegPositive(Short, c, sec, j);
  }

  /** With a gross limit of one, the source gross-cap branch is dead. */
  lemma SourceGrossBranchDead(raw: seq<real>, sec: seq<nat>, l: Limits)
    requires 0 < |raw| <= |sec| && HasSignal(raw, sec) && Positive(l) && l.gross >= 1.0
    ensures Total(Gross, ShrinkSectors(Clip(Legs(raw, sec), l.product), sec, l.sector), sec) <= l.gross
  {
    var w := Legs(raw, sec);
    LegsHalf(raw, sec);
    assert ShrinksWeakly(w, Clip(w, l.product));
    ShrinkSectorsShrinks(Clip(w, l.product), sec, l.sector);
    ShrinkLowers(Gross, w, Clip(w, l.product), sec);
    ShrinkLowers(Gross, Clip(w, l.product), ShrinkSectors(Clip(w, l.product), sec, l.sector), sec);
  }

  /** Source stage: exact caps, exact zero net, no sign flipped, nothing grown. */
  lemma CapSourceSafe(raw: seq<real>, sec: seq<nat>, l: Limits)
    requires 0 < |raw| <= |sec| && Positive(l)
    ensures |CapSource(raw, sec, l)| == |raw|
    ensures Within(CapSource(raw, sec, l), sec, l)
    ensures HasSignal(raw, sec) ==> Shrinks(Legs(raw, sec), CapSource(raw, sec, l))
  {
    if HasSignal(raw, sec) {
      CappedLegsSurvive(raw, sec, l);
      CappedWithinCaps(Legs(raw, sec), sec, l);
      WithinAfterBalance(Legs(raw, sec), Capped(Legs(raw, sec), sec, l), sec, l);
    } else {
      ZerosWithin(|raw|, sec, l);
    }
  }

  /** Weights already inside every cap come out untouched: the stage never shrinks without cause. */
  lemma CapSourceKeepsCappedLegs(raw: seq<real>, sec: seq<nat>, l: Limits)
    requires 0 < |raw| <= |sec| && HasSignal(raw, sec) && Positive(l)
    requires MeetsCaps(Legs(raw, sec), sec, l)
    ensures CapSource(raw, sec, l) == Legs(raw, sec)
  {
    LegsHalf(raw, sec);
    CappedFixed(Legs(raw, sec), sec, l);
    BalanceFixed(Legs(raw, sec), sec);
  }

  /** Products of one sector on the same side keep their relative size through the sector shrink. */
  lemma CapsKeepSectorProportions(w: seq<real>, sec: seq<nat>, cap: real, i: nat, j: nat)
    requires |w| <= |sec| && i < |w| && j < |w| && sec[i] == sec[j]
    ensures ShrinkSectors(w, sec, cap)[i] * w[j] == ShrinkSectors(w, sec, cap)[j] * w[i]
  {
    Commute(w[i], w[j], Scale(Total(Sector(sec[i]), w, sec), cap));
  }

  /** The gross shrink keeps the relative size of every two products. */
  lemma GrossKeepsProportions(w: seq<real>, sec: seq<nat>, cap: real, i: nat, j: nat)
    requires |w| <= |sec| && i < |w| && j < |w|
    ensures ShrinkGross(w, sec, cap)[i] * w[j] == ShrinkGross(w, sec, cap)[j] * w[i]
  {
    hide Total, Scale;
    var c := Scale(Total(Gross, w, sec), cap);
    EvenLeg(w[i], c);
    EvenLeg(w[j], c);
    Commute(w[i], w[j], c);
  }

  lemma EvenLeg(v: real, c: real)
    ensures ScaleLeg(v, c, c) == v * c
  {}

  lemma Commute(a: real, b: real, c: real)
    ensures a * c * b == b * c * a
  {}

  /** Buffer stage: the same, for every input vector whatever its net. */
  lemma BufferSafe(w: seq<real>, sec: seq<nat>, l: Limits)
    requires |w| <= |sec| && Positive(l)
    ensures |Buffer(w, sec, l)| == |w|
    ensures Within(Buffer(w, sec, l), sec, l)
    ensures ShrinksWeakly(w, Buffer(w, sec, l))
  {
    var c := Capped(w, sec, l);
    if Min(Total(Long, c, sec), Total(Short, c, sec)) <= 0.00000000000001 {
      ZerosWithin(|w|, sec, l);
    } else {
      CappedWithinCaps(w, sec, l);
      WithinAfterBalance(w, c, sec, l);
    }
  }

  // ---------------------------------------------------------------- weight by weight

  /** `r` is `v` cut back to the magnitude `cap` where it is larger, on the same side. */
  predicate CutTo(v: real, cap: real, r: real) {
    && (-cap <= v <= cap ==> r == v)
    && (v > cap ==> r == cap)
    && (v < -cap ==> r == -cap)
  }

  /** The product stage cuts every weight back to exactly the cap and leaves the others alone. */
  lemma ProductsMeetCapExactly(w: seq<real>, cap: real, i: nat)
    requires i < |w| && cap > 0.0
    ensures CutTo(w[i], cap, Clip(w, cap)[i])
    ensures Abs(Clip(w, cap)[i]) == if Abs(w[i]) <= cap then Abs(w[i]) else cap
  {}

  lemma {:induction false} CentredNet(w: seq<real>, r: seq<real>, sec: seq<nat>, mean: real)
    requires |w| == |r| <= |sec| && forall i :: 0 <= i < |w| ==> r[i] == w[i] - mean
    ensures IsScaled(mean, |w| as real, Total(Net, w, sec) - Total(Net, r, sec))
    decreases |w|
  {
    if w != [] {
      var n := |w| - 1;
      CentredNet(w[..n], r[..n], sec, mean);
      ScaledSum(mean, n as real, 1.0, Total(Net, w[..n], sec) - Total(Net, r[..n], sec), mean);
    }
  }

  lemma MeanScales(total: real, n: real, d: real)
    requires n > 0.0 && IsScaled(total / n, n, d)
    ensures d == total
  {}

  /** Centring keeps every difference between two scores and leaves a net of zero. */
  lemma CentredExact(raw: seq<real>, sec: seq<nat>)
    requires 0 < |raw| <= |sec|
    ensures Total(Net, Centred(raw, sec), sec) == 0.0
    ensures forall i, j :: 0 <= i < |raw| && 0 <= j < |raw| ==> Centred(raw, sec)[i] - Centred(raw, sec)[j] == raw[i] - raw[j]
  {
    var c := Centred(raw, sec);
    CentredNet(raw, c, sec, Mean(raw, sec));
    MeanScales(Total(Net, raw, sec), |raw| as real, Total(Net, raw, sec) - Total(Net, c, sec));
  }

  lemma Proportional(a: real, b: real, k: real, c: real)
    requires c > 0.0 && k == 0.5 / c
    ensures Times(a, k) * b == Times(b, k) * a
    ensures (a > 0.0 ==> Times(a, k) > 0.0) && (a < 0.0 ==> Times(a, k) < 0.0)
  {
    assert k > 0.0;
    if a > 0.0 {
      assert Times(a, k) > 0.0;
    }
  }

  /** A starting weight has the sign of its centred score, and two on one side are proportional to theirs. */
  lemma LegsProportional(raw: seq<real>, sec: seq<nat>, i: nat, j: nat)
    requires 0 < |raw| <= |sec| && HasSignal(raw, sec) && i < |raw| && j < |raw|
    requires Centred(raw, sec)[i] * Centred(raw, sec)[j] > 0.0
    ensures var c, w := Centred(raw, sec), Legs(raw, sec);
      && (c[i] > 0.0 <==> w[i] > 0.0) && (c[i] < 0.0 <==> w[i] < 0.0)
      && w[i] * c[j] == w[j] * c[i]
  {
    hide Centred, Total, Legs, Times, ScaleLeg;
    var c := Centred(raw, sec);
    SameSide(c[i], c[j]);
    LegAt(raw, sec, i);
    LegAt(raw, sec, j);
    var leg := if c[i] > 0.0 then Total(Long, c, sec) else Total(Short, c, sec);
    Proportional(c[i], c[j], 0.5 / leg, leg);
  }

  lemma LegAt(raw: seq<real>, sec: seq<nat>, i: nat)
    requires 0 < |raw| <= |sec| && HasSignal(raw, sec) && i < |raw|
    ensures var c := Centred(raw, sec);
      && (c[i] > 0.0 ==> Legs(raw, sec)[i] == Times(c[i], 0.5 / Total(Long, c, sec)))
      && (c[i] < 0.0 ==> Legs(raw, sec)[i] == Times(c[i], 0.5 / Total(Short, c, sec)))
      && (c[i] == 0.0 ==> Legs(raw, sec)[i] == 0.0)
  {
    hide Centred, Total, Times;
  }

  lemma SameSide(a: real, b: real)
    requires a * b > 0.0
    ensures (a > 0.0 && b > 0.0) || (a < 0.0 && b < 0.0)
  {}

  lemma ScaledBy(v: real, a: real, b: real)
    requires b > 0.0
    ensures a == b ==> Times(v, a / b) == v
    ensures Times(Times(v, a / b), b) == Times(v, a)
  {}

  /** Balancing leaves the lighter leg as it is and scales the heavier one by lighter over heavier. */
  lemma BalanceByLeg(w: seq<real>, sec: seq<nat>, i: nat)
    requires i < |w| <= |sec| && Total(Long, w, sec) > 0.0 && Total(Short, w, sec) > 0.0
    ensures var long, short, r := Total(Long, w, sec), Total(Short, w, sec), Balance(w, sec)[i];
      && (w[i] == 0.0 ==> r == 0.0)
      && (w[i] > 0.0 ==> if long <= short then r == w[i] else Times(r, long) == Times(w[i], short))
      && (w[i] < 0.0 ==> if short <= long then r == w[i] else Times(r, short) == Times(w[i], long))
  {
    hide Total, Times;
    var long, short := Total(Long, w, sec), Total(Short, w, sec);
    ScaledBy(w[i], Min(long, short), long);
    ScaledBy(w[i], Min(long, short), short);
  }

  /** With sectors and gross inside their caps, clipping is all the cap stages do. */
  lemma OnlyClipped(w: seq<real>, sec: seq<nat>, l: Limits)
    requires |w| <= |sec| && Positive(l)
    requires forall s: nat :: Total(Sector(s), Clip(w, l.product), sec) <= l.sector
    requires Total(Gross, Clip(w, l.product), sec) <= l.gross
    ensures Capped(w, sec, l) == Clip(w, l.product)
  {
    hide Total;
    var c := Clip(w, l.product);
    assert ShrinkSectors(c, sec, l.sector) == c by {
      assert forall i :: 0 <= i < |c| ==> Scale(Total(Sector(sec[i]), c, sec), l.sector) == 1.0;
    }
    assert ScaleLegs(c, 1.0, 1.0) == c;
  }

  /** The legs of a clipped vector: which is lighter decides which weights come out exactly cut to the product cap. */
  ghost predicate ClippedThenBalanced(w: seq<real>, sec: seq<nat>, cap: real, r: seq<real>)
    requires |w| <= |sec|
  {
    var c := Clip(w, cap);
    var long, short := Total(Long, c, sec), Total(Short, c, sec);
    && |r| == |w|
    && forall i :: 0 <= i < |w| ==>
         && (w[i] == 0.0 ==> r[i] == 0.0)
         && (w[i] > 0.0 ==> if long <= short then CutTo(w[i], cap, r[i]) else Times(r[i], long) == Times(if w[i] <= cap then w[i] else cap, short))
         && (w[i] < 0.0 ==> if short <= long then CutTo(w[i], cap, r[i]) else Times(r[i], short) == Times(if w[i] >= -cap then w[i] else -cap, long))
  }

  lemma ClippedBalance(w: seq<real>, sec: seq<nat>, cap: real)
    requires |w| <= |sec| && cap > 0.0
    requires Total(Long, Clip(w, cap), sec) > 0.0 && Total(Short, Clip(w, cap), sec) > 0.0
    ensures ClippedThenBalanced(w, sec, cap, Balance(Clip(w, cap), sec))
  {
    hide Total, Balance, Times;
    forall i | 0 <= i < |w| ensures CutTo(w[i], cap, Clip(w, cap)[i]) {
      ProductsMeetCapExactly(w, cap, i);
    }
    forall i: nat | i < |w| {
      BalanceByLeg(Clip(w, cap), sec, i);
    }
  }

  /**
   The source stage where no sector and not the gross is over its cap: each weight of the lighter clipped leg comes out
   as the starting weight cut to exactly the product cap, the other leg in proportion.
   */
  lemma CapSourceByWeight(raw: seq<real>, sec: seq<nat>, l: Limits)
    requires 0 < |raw| <= |sec| && HasSignal(raw, sec) && Positive(l)
    requires forall s: nat :: Total(Sector(s), Clip(Legs(raw, sec), l.product), sec) <= l.sector
    requires Total(Gross, Clip(Legs(raw, sec), l.product), sec) <= l.gross
    ensures ClippedThenBalanced(Legs(raw, sec), sec, l.product, CapSource(raw, sec, l))
  {
    hide Total, Legs, HasSignal, Capped, Balance, Clip, ClippedThenBalanced;
    CappedLegsSurvive(raw, sec, l);
    OnlyClipped(Legs(raw, sec), sec, l);
    ClippedBalance(Legs(raw, sec), sec, l.product);
  }

  /** The same of the buffer stage, unless one leg is negligible. */
  lemma BufferByWeight(w: seq<real>, sec: seq<nat>, l: Limits)
    requires |w| <= |sec| && Positive(l)
    requires forall s: nat :: Total(Sector(s), Clip(w, l.product), sec) <= l.sector
    requires Total(Gross, Clip(w, l.product), sec) <= l.gross
    ensures var c := Clip(w, l.product);
      if Total(Long, c, sec) > 0.00000000000001 && Total(Short, c, sec) > 0.00000000000001
      then ClippedThenBalanced(w, sec, l.product, Buffer(w, sec, l))
      else Buffer(w, sec, l) == Zeros(|w|)
  {
    hide Total, Capped, Balance, Clip, ClippedThenBalanced;
    OnlyClipped(w, sec, l);
    var c := Clip(w, l.product);
    if Total(Long, c, sec) > 0.00000000000001 && Total(Short, c, sec) > 0.00000000000001 {
      ClippedBalance(w, sec, l.product);
    }
  }

  // ---------------------------------------------------------------- fixed points of the buffer

  lemma CappedFixed(w: seq<real>, sec: seq<nat>, l: Limits)
    requires |w| <= |sec| && MeetsCaps(w, sec, l)
    ensures Capped(w, sec, l) == w
  {
    assert Clip(w, l.product) == w;
    assert ShrinkSectors(w, sec, l.sector) == w by {
      assert forall i :: 0 <= i < |w| ==> Scale(Total(Sector(sec[i]), w, sec), l.sector) == 1.0;
    }
    assert ScaleLegs(w, 1.0, 1.0) == w;
  }

  lemma BalanceFixed(w: seq<real>, sec: seq<nat>)
    requires |w| <= |sec| && Total(Long, w, sec) == Total(Short, w, sec) > 0.0
    ensures Balance(w, sec) == w
  {
    var x := Total(Long, w, sec);
    SelfRatio(x);
    assert ScaleLegs(w, 1.0, 1.0) == w;
  }

  /** The buffer leaves a vector alone exactly when it is capped, net zero, and empty or not negligible. */
  lemma BufferFixedPoints(w: seq<real>, sec: seq<nat>, l: Limits)
    requires |w| <= |sec| && Positive(l)
    ensures Buffer(w, sec, l) == w <==>
      Within(w, sec, l) && (w == Zeros(|w|) || Total(Long, w, sec) > 0.00000000000001)
  {
    var c := Capped(w, sec, l);
    if Buffer(w, sec, l) == w {
      BufferSafe(w, sec, l);
      if Min(Total(Long, c, sec), Total(Short, c, sec)) > 0.00000000000001 {
        BalanceExact(c, sec);
      }
    }
    if Within(w, sec, l) {
      CappedFixed(w, sec, l);
      LegsSplit(w, sec);
      if w == Zeros(|w|) {
        ZeroTotals(Long, |w|, sec);
      } else if Total(Long, w, sec) > 0.00000000000001 {
        BalanceFixed(w, sec);
      }
    }
  }

  /** Buffering twice is buffering once. */
  lemma BufferIdempotent(w: seq<real>, sec: seq<nat>, l: Limits)
    requires |w| <= |sec| && Positive(l)
    ensures |Buffer(w, sec, l)| == |w|
    ensures Buffer(Buffer(w, sec, l), sec, l) == Buffer(w, sec, l)
  {
    var c := Capped(w, sec, l);
    BufferSafe(w, sec, l);
    if Min(Total(Long, c, sec), Total(Short, c, sec)) > 0.00000000000001 {
      BalanceExact(c, sec);
    }
    BufferFixedPoints(Buffer(w, sec, l), sec, l);
  }

  // ---------------------------------------------------------------- symmetries

  ghost function Negated(w: seq<real>): seq<real> { seq(|w|, i requires 0 <= i < |w| => -w[i]) }

  ghost function Shifted(w: seq<real>, k: real): seq<real> { seq(|w|, i requires 0 <= i < |w| => w[i] + k) }

  ghost function Mirror(m: Measure): Measure { if m == Long then Short else if m == Short then Long else m }

  lemma {:induction false} NegatedTotals(m: Measure, w: seq<real>, sec: seq<nat>)
    requires |w| <= |sec|
    ensures Total(m, Negated(w), sec)
         == if m == Net then -Total(Net, w, sec) else Total(Mirror(m), w, sec)
  {
    if w != [] {
      var n := |w| - 1;
      NegatedTotals(m, w[..n], sec);
      assert Negated(w)[..n] == Negated(w[..n]);
    }
  }

  lemma NegatedLegs(w: seq<real>, up: real, down: real)
    ensures ScaleLegs(Negated(w), up, down) == Negated(ScaleLegs(w, down, up))
  {
    forall i | 0 <= i < |w| ensures ScaleLegs(Negated(w), up, down)[i] == Negated(ScaleLegs(w, down, up))[i] {
      NegatedLeg(w[i], up, down);
    }
  }

  lemma NegatedLeg(v: real, up: real, down: real)
    ensures ScaleLeg(-v, up, down) == -ScaleLeg(v, down, up)
  {}

  lemma NegatedSectors(w: seq<real>, sec: seq<nat>, cap: real)
    requires |w| <= |sec|
    ensures ShrinkSectors(Negated(w), sec, cap) == Negated(ShrinkSectors(w, sec, cap))
  {
    forall i | 0 <= i < |w|
      ensures ShrinkSectors(Negated(w), sec, cap)[i] == Negated(ShrinkSectors(w, sec, cap))[i]
    {
      NegatedTotals(Sector(sec[i]), w, sec);
      NegatedTimes(w[i], Scale(Total(Sector(sec[i]), w, sec), cap));
    }
  }

  lemma NegatedTimes(a: real, b: real)
    ensures Times(-a, b) == -Times(a, b)
  {}

  lemma NegatedCapped(w: seq<real>, sec: seq<nat>, l: Limits)
    requires |w| <= |sec| && Positive(l)
    ensures Capped(Negated(w), sec, l) == Negated(Capped(w, sec, l))
  {
    assert Clip(Negated(w), l.product) == Negated(Clip(w, l.product));
    var a := Clip(w, l.product);
    NegatedSectors(a, sec, l.sector);
    var b := ShrinkSectors(a, sec, l.sector);
    NegatedTotals(Gross, b, sec);
    var c := Scale(Total(Gross, b, sec), l.gross);
    NegatedLegs(b, c, c);
  }

  lemma NegatedBalance(w: seq<real>, sec: seq<nat>)
    requires |w| <= |sec| && Total(Long, w, sec) > 0.0 && Total(Short, w, sec) > 0.0
    ensures Total(Long, Negated(w), sec) > 0.0 && Total(Short, Negated(w), sec) > 0.0
    ensures Balance(Negated(w), sec) == Negated(Balance(w, sec))
  {
    NegatedTotals(Long, w, sec);
    NegatedTotals(Short, w, sec);
    var lighter := Min(Total(Long, w, sec), Total(Short, w, sec));
    NegatedLegs(w, lighter / Total(Short, w, sec), lighter / Total(Long, w, sec));
  }

  lemma NegatedStart(raw: seq<real>, sec: seq<nat>)
    requires 0 < |raw| <= |sec|
    ensures Centred(Negated(raw), sec) == Negated(Centred(raw, sec))
    ensures HasSignal(Negated(raw), sec) == HasSignal(raw, sec)
    ensures HasSignal(raw, sec) ==> Legs(Negated(raw), sec) == Negated(Legs(raw, sec))
  {
    var c := Centred(raw, sec);
    NegatedTotals(Net, raw, sec);
    NegatedMean(Total(Net, raw, sec), |raw| as real);
    assert Centred(Negated(raw), sec) == Negated(c);
    NegatedTotals(Long, c, sec);
    NegatedTotals(Short, c, sec);
    if HasSignal(raw, sec) {
      NegatedLegs(c, 0.5 / Total(Short, c, sec), 0.5 / Total(Long, c, sec));
    }
  }

  lemma NegatedMean(x: real, n: real)
    requires n > 0.0
    ensures (-x) / n == -(x / n)
  {}

  /** Negating every score negates every source weight. */
  lemma CapSourceOdd(raw: seq<real>, sec: seq<nat>, l: Limits)
    requires 0 < |raw| <= |sec| && Positive(l)
    ensures CapSource(Negated(raw), sec, l) == Negated(CapSource(raw, sec, l))
  {
    NegatedStart(raw, sec);
    if HasSignal(raw, sec) {
      var w := Legs(raw, sec);
      NegatedCapped(w, sec, l);
      CappedLegsSurvive(raw, sec, l);
      NegatedBalance(Capped(w, sec, l), sec);
    }
  }

  /** The buffer treats long and short books alike. */
  lemma BufferOdd(w: seq<real>, sec: seq<nat>, l: Limits)
    requires |w| <= |sec| && Positive(l)
    ensures Buffer(Negated(w), sec, l) == Negated(Buffer(w, sec, l))
  {
    var c := Capped(w, sec, l);
    NegatedCapped(w, sec, l);
    NegatedTotals(Long, c, sec);
    NegatedTotals(Short, c, sec);
    if Min(Total(Long, c, sec), Total(Short, c, sec)) > 0.00000000000001 {
      NegatedBalance(c, sec);
    }
  }

  lemma {:induction false} ShiftedNet(w: seq<real>, sec: seq<nat>, k: real)
    requires |w| <= |sec|
    ensures IsScaled(k, |w| as real, Total(Net, Shifted(w, k), sec) - Total(Net, w, sec))
    decreases |w|
  {
    if w != [] {
      var n := |w| - 1;
      ShiftedNet(w[..n], sec, k);
      assert Shifted(w, k)[..n] == Shifted(w[..n], k);
      ScaledSum(k, n as real, 1.0, Total(Net, Shifted(w[..n], k), sec) - Total(Net, w[..n], sec), k);
    }
  }

  lemma ShiftedMean(total: real, shifted: real, k: real, n: real)
    requires n > 0.0 && IsScaled(k, n, shifted - total)
    ensures shifted / n == total / n + k
  {}

  /** Adding one constant to every score changes nothing. */
  lemma CapSourceTranslationInvariant(raw: seq<real>, sec: seq<nat>, k: real, l: Limits)
    requires 0 < |raw| <= |sec| && Positive(l)
    ensures CapSource(Shifted(raw, k), sec, l) == CapSource(raw, sec, l)
  {
    ShiftedNet(raw, sec, k);
    ShiftedMean(Total(Net, raw, sec), Total(Net, Shifted(raw, k), sec), k, |raw| as real);
    assert Centred(Shifted(raw, k), sec) == Centred(raw, sec);
  }

  // ---------------------------------------------------------------- the kernel's own loops

  lemma {:induction false} SectorOnlyMembers(a: seq<real>, b: seq<real>, sec: seq<nat>, s: nat)
    requires |a| == |b| <= |sec|
    requires forall i :: 0 <= i < |a| && sec[i] == s ==> a[i] == b[i]
    ensures Total(Sector(s), a, sec) == Total(Sector(s), b, sec)
  {
    if a != [] {
      SectorOnlyMembers(a[..|a| - 1], b[..|b| - 1], sec, s);
    }
  }

  /** Shrinks the sectors one after another, member by member, in place. */
  method ShrinkSectorsInOrder(start: seq<real>, sec: seq<nat>, sectors: nat, cap: real) returns (w: seq<real>)
    requires |start| <= |sec| && cap > 0.0
    requires forall i :: 0 <= i < |sec| ==> sec[i] < sectors
    ensures w == ShrinkSectors(start, sec, cap)
  {
    w := start;
    for s := 0 to sectors
      invariant |w| == |start|
      invariant forall i :: 0 <= i < |w| ==>
        w[i] == if sec[i] < s then ShrinkSectors(start, sec, cap)[i] else start[i]
    {
      SectorOnlyMembers(w, start, sec, s);
      var gross := Total(Sector(s), w, sec);
      if gross > cap {
        var scale := cap / gross;
        for p := 0 to |w|
          invariant |w| == |start|
          invariant forall i :: 0 <= i < |w| ==>
            w[i] == if sec[i] < s || (sec[i] == s && i < p) then ShrinkSectors(start, sec, cap)[i] else start[i]
        {
          if sec[p] == s {
            w := w[p := w[p] * scale];
          }
        }
      }
    }
  }

  /** The final check of both stages, with its tolerances. */
  function VerifyWeightLimits(w: seq<real>, l: Limits): Outcome
    requires |w| == |PRODUCTS|
  {
    if exists i :: 0 <= i < |w| && Abs(w[i]) > l.product + 0.000000000001 then Failed("product cap failed")
    else if Total(Gross, w, SECTOR_OF) > l.gross + 0.000000000001 then Failed("gross cap failed")
    else if Abs(Total(Net, w, SECTOR_OF)) > 0.0000000001 then Failed("net-zero check failed")
    else if exists s :: 0 <= s < |SECTORS| && Total(Sector(s), w, SECTOR_OF) > l.sector + 0.000000000001 then
      Failed("sector cap failed")
    else Weights(w)
  }

  /** The caps with the tolerance the final check allows each of them. */
  function Tolerant(l: Limits): Limits {
    Limits(l.product + 0.000000000001, l.sector + 0.000000000001, l.gross + 0.000000000001)
  }

  lemma {:induction false} EmptySector(w: seq<real>, sec: seq<nat>, s: nat)
    requires |w| <= |sec| && forall i :: 0 <= i < |w| ==> sec[i] != s
    ensures Total(Sector(s), w, sec) == 0.0
  {
    if w != [] {
      EmptySector(w[..|w| - 1], sec, s);
    }
  }

  lemma SectorsListed(w: seq<real>, cap: real)
    requires |w| <= |SECTOR_OF| && cap > 0.0
    ensures (forall s: nat :: Total(Sector(s), w, SECTOR_OF) <= cap) <==>
      !exists s :: 0 <= s < |SECTORS| && Total(Sector(s), w, SECTOR_OF) > cap
  {
    hide Total;
    forall s: nat | s >= |SECTORS| ensures Total(Sector(s), w, SECTOR_OF) == 0.0 {
      EmptySector(w, SECTOR_OF, s);
    }
  }

  lemma AbsWithin(x: real, bound: real)
    ensures !(Abs(x) > bound) <==> -bound <= x <= bound
  {}

  /** The final check accepts exactly the weights within tolerance of every cap and of zero net. */
  lemma VerifyExact(w: seq<real>, l: Limits)
    requires |w| == |PRODUCTS| && Positive(l)
    ensures VerifyWeightLimits(w, l) == Weights(w) <==>
      MeetsCaps(w, SECTOR_OF, Tolerant(l)) && -0.0000000001 <= Total(Net, w, SECTOR_OF) <= 0.0000000001
  {
    hide Total, Abs;
    SectorsListed(w, Tolerant(l).sector);
    AbsWithin(Total(Net, w, SECTOR_OF), 0.0000000001);
  }

  /** The source stage: two legs, caps, balance and the final check. */
  method CapSourceWeights(raw: seq<real>) returns (r: Outcome)
    requires |raw| == |PRODUCTS|
    ensures r == Weights(CapSource(raw, SECTOR_OF, Limits(0.20, 0.35, 1.00)))
  {
    CapSourceSafe(raw, SECTOR_OF, SOURCE_LIMITS);
    var centred := Centred(raw, SECTOR_OF);
    var positive, negative := Total(Long, centred, SECTOR_OF), Total(Short, centred, SECTOR_OF);
    if positive <= 0.000000000001 || negative <= 0.000000000001 {
      return Weights(Zeros(|raw|));
    }
    CappedLegsSurvive(raw, SECTOR_OF, SOURCE_LIMITS);
    var weights := ScaleLegs(centred, 0.5 / positive, 0.5 / negative);
    weights := Clip(weights, SOURCE_LIMITS.product);
    weights := ShrinkSectorsInOrder(weights, SECTOR_OF, |SECTORS|, SOURCE_LIMITS.sector);
    var gross := Total(Gross, weights, SECTOR_OF);
    assert ScaleLegs(weights, 1.0, 1.0) == weights;
    if gross > SOURCE_LIMITS.gross {
      weights := ScaleLegs(weights, SOURCE_LIMITS.gross / gross, SOURCE_LIMITS.gross / gross);
    }
    var longGross, shortGross := Total(Long, weights, SECTOR_OF), Total(Short, weights, SECTOR_OF);
    var balanced := Min(longGross, shortGross);
    if balanced <= 0.0 {
      return Failed("source caps removed one portfolio leg");
    }
    weights := ScaleLegs(weights, balanced / longGross, balanced / shortGross);
    r := VerifyWeightLimits(weights, SOURCE_LIMITS);
  }

  /** The buffer stage: caps, balance and the final check. */
  method BufferWeights(source: seq<real>) returns (r: Outcome)
    requires |source| == |PRODUCTS|
    ensures r == Weights(Buffer(source, SECTOR_OF, Limits(0.12, 0.27, 0.80)))
  {
    BufferSafe(source, SECTOR_OF, BUFFER_LIMITS);
    var weights := Clip(source, BUFFER_LIMITS.product);
    weights := ShrinkSectorsInOrder(weights, SECTOR_OF, |SECTORS|, BUFFER_LIMITS.sector);
    var gross := Total(Gross, weights, SECTOR_OF);
    assert ScaleLegs(weights, 1.0, 1.0) == weights;
    if gross > BUFFER_LIMITS.gross {
      var scale := BUFFER_LIMITS.gross / gross;
      weights := ScaleLegs(weights, scale, scale);
    }
    assert weights == Capped(source, SECTOR_OF, BUFFER_LIMITS);
    var positive, negative := Total(Long, weights, SECTOR_OF), Total(Short, weights, SECTOR_OF);
    if Min(positive, negative) <= 0.00000000000001 {
      weights := Zeros(|source|);
    } else if positive > negative {
      SelfRatio(negative);
      weights := ScaleLegs(weights, negative / positive, 1.0);
    } else if negative > positive {
      SelfRatio(positive);
      weights := ScaleLegs(weights, 1.0, positive / negative);
    } else {
      BalanceFixed(weights, SECTOR_OF);
    }
    r := VerifyWeightLimits(weights, BUFFER_LIMITS);
  }
}
