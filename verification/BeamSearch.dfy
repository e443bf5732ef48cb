/**
 The integer allocator's beam search: lots are chosen line by line under strict caps, partial
 choices are ranked by a lower bound on what they can still achieve, and only the best `width`
 of them survive each line.
 */
module BeamSearch {
  import opened RealMath
  import opened Book
  import opened Sorting

  const GROSS_CAP := 1.00
  const SECTOR_CAP := 0.35
  const NET_CAP := 0.10
  const STRICT_EPSILON := 0.000000000001

  predicate StrictlyBelow(value: real, cap: real) { cap > 0.0 && value < cap - STRICT_EPSILON }

  /** One product to be allocated: its target, the weight of one lot, its sector and its lot options. */
  datatype Line = Line(target: real, unit: real, sector: nat, options: seq<int>)

  /** The running totals of a partial choice, as the search carries them. */
  datatype State = State(sse: real, net: real, gross: real, sectorGross: seq<real>, quantities: seq<int>)

  datatype Node = Node(bound: real, state: State)

  ghost predicate WellFormed(lines: seq<Line>, sectors: nat) {
    forall i :: 0 <= i < |lines| ==> 0 in lines[i].options && lines[i].sector < sectors
  }

  // ---------------------------------------------------------------- what a choice of lots means

  function WeightOf(l: Line, q: int): real { Times(q as real, l.unit) }

  function Realized(lines: seq<Line>, q: seq<int>): seq<real>
    requires |q| <= |lines|
  {
    seq(|q|, i requires 0 <= i < |q| => WeightOf(lines[i], q[i]))
  }

  function SectorsOf(lines: seq<Line>): seq<nat> { seq(|lines|, i requires 0 <= i < |lines| => lines[i].sector) }

  function Exposure(m: Measure, lines: seq<Line>, q: seq<int>): real
    requires |q| <= |lines|
  {
    Total(m, Realized(lines, q), SectorsOf(lines))
  }

  /** The squared distance of `q` lots from a target weight. */
  function Miss(target: real, unit: real, q: int): real { Square(Times(q as real, unit) - target) }

  function ErrorOf(l: Line, q: int): real { Miss(l.target, l.unit, q) }

  function SquaredError(lines: seq<Line>, q: seq<int>): real
    requires |q| <= |lines|
  {
    if q == [] then 0.0
    else SquaredError(lines, q[..|q| - 1]) + ErrorOf(lines[|q| - 1], q[|q| - 1])
  }

  function Objective(lines: seq<Line>, q: seq<int>): real
    requires |q| <= |lines|
  {
    SquaredError(lines, q) + Square(Exposure(Net, lines, q))
  }

  /** Lots are among the options and the gross and sector caps hold strictly. */
  ghost predicate Admits(lines: seq<Line>, sectors: nat, q: seq<int>) {
    && |q| <= |lines|
    && (forall i :: 0 <= i < |q| ==> q[i] in lines[i].options)
    && StrictlyBelow(Exposure(Gross, lines, q), GROSS_CAP)
    && forall s: nat :: s < sectors ==> StrictlyBelow(Exposure(Sector(s), lines, q), SECTOR_CAP)
  }

  /** A complete choice that meets every cap, the net cap included. */
  ghost predicate Feasible(lines: seq<Line>, sectors: nat, q: seq<int>) {
    && |q| == |lines|
    && Admits(lines, sectors, q)
    && StrictlyBelow(Abs(Exposure(Net, lines, q)), NET_CAP)
  }

  // ---------------------------------------------------------------- the search

  /** The options' weights. */
  function OptionWeights(l: Line): (r: seq<real>)
    ensures |r| == |l.options|
    ensures forall q :: q in l.options ==> WeightOf(l, q) in r
  {
    var r := seq(|l.options|, i requires 0 <= i < |l.options| => WeightOf(l, l.options[i]));
    assert forall q :: q in l.options ==> exists i :: 0 <= i < |l.options| && l.options[i] == q && r[i] == WeightOf(l, q);
    r
  }

  function OptionErrors(l: Line): (r: seq<real>)
    ensures |r| == |l.options|
    ensures forall q :: q in l.options ==> ErrorOf(l, q) in r
  {
    var r := seq(|l.options|, i requires 0 <= i < |l.options| => ErrorOf(l, l.options[i]));
    assert forall q :: q in l.options ==> exists i :: 0 <= i < |l.options| && l.options[i] == q && r[i] == ErrorOf(l, q);
    r
  }

  predicate HasOptions(lines: seq<Line>) { forall i :: 0 <= i < |lines| ==> lines[i].options != [] }

  function SuffixMinNet(lines: seq<Line>, k: nat): real
    requires k <= |lines| && HasOptions(lines)
    decreases |lines| - k
  {
    if k == |lines| then 0.0 else SuffixMinNet(lines, k + 1) + MinReal(OptionWeights(lines[k]))
  }

  function SuffixMaxNet(lines: seq<Line>, k: nat): real
    requires k <= |lines| && HasOptions(lines)
    decreases |lines| - k
  {
    if k == |lines| then 0.0 else SuffixMaxNet(lines, k + 1) + MaxReal(OptionWeights(lines[k]))
  }

  function SuffixMinError(lines: seq<Line>, k: nat): real
    requires k <= |lines| && HasOptions(lines)
    decreases |lines| - k
  {
    if k == |lines| then 0.0 else SuffixMinError(lines, k + 1) + MinReal(OptionErrors(lines[k]))
  }

  /** The least absolute value in the interval from `low` to `high`. */
  function NearestToZero(low: real, high: real): real {
    if low > 0.0 then low else if high < 0.0 then -high else 0.0
  }

  /** Error so far, least error to come, and the least penalty the net can still end with. */
  function BoundFrom(sse: real, restError: real, net: real, restMin: real, restMax: real): real {
    sse + restError + Square(NearestToZero(net + restMin, net + restMax))
  }

  /** The search's lower bound, from the totals of a partial choice of `k` lines. */
  function LowerBound(lines: seq<Line>, k: nat, sse: real, net: real): real
    requires k <= |lines| && HasOptions(lines)
  {
    BoundFrom(sse, SuffixMinError(lines, k), net, SuffixMinNet(lines, k), SuffixMaxNet(lines, k))
  }

  function Initial(sectors: nat): State { State(0.0, 0.0, 0.0, seq(sectors, i => 0.0), []) }

  function Grow(l: Line, st: State, q: int): State {
    var w := WeightOf(l, q);
    State(st.sse + ErrorOf(l, q), st.net + w, st.gross + Abs(w),
          seq(|st.sectorGross|, s requires 0 <= s < |st.sectorGross| =>
            if s == l.sector then st.sectorGross[s] + Abs(w) else st.sectorGross[s]),
          st.quantities + [q])
  }

  predicate PassesCaps(l: Line, st: State) {
    && StrictlyBelow(st.gross, GROSS_CAP)
    && l.sector < |st.sectorGross|
    && StrictlyBelow(st.sectorGross[l.sector], SECTOR_CAP)
  }

  function NodeOf(lines: seq<Line>, k: nat, st: State): Node
    requires k <= |lines| && HasOptions(lines)
  {
    Node(LowerBound(lines, k, st.sse, st.net), st)
  }

  function Children(lines: seq<Line>, k: nat, st: State, options: seq<int>): seq<Node>
    requires k < |lines| && HasOptions(lines)
  {
    if options == [] then []
    else
      var n := |options| - 1;
      var next := Grow(lines[k], st, options[n]);
      Children(lines, k, st, options[..n])
      + (if PassesCaps(lines[k], next) then [NodeOf(lines, k + 1, next)] else [])
  }

  function Expand(lines: seq<Line>, k: nat, states: seq<State>): seq<Node>
    requires k < |lines| && HasOptions(lines)
  {
    if states == [] then []
    else
      var n := |states| - 1;
      Expand(lines, k, states[..n]) + Children(lines, k, states[n], lines[k].options)
  }

  datatype Key = Key(first: real, sse: real, absNet: real, quantities: seq<int>)

  /** Lots compare by their number. */
  function LotRank(q: int): int { q }

  function Less(x: int, y: int): bool { x < y }

  /** The first lot count in which they differ is smaller in `a`. */
  ghost predicate LotsFirst(a: seq<int>, b: seq<int>) { a == b || exists k: nat :: SmallerAt(a, b, Less, k) }

  lemma LotsOrder(a: seq<int>, b: seq<int>)
    ensures LexLeq(a, b, LotRank) <==> LotsFirst(a, b)
  {
    LexDecided(a, b, LotRank, Less);
  }

  predicate KeyLeq(a: Key, b: Key) {
    if a.first != b.first then a.first < b.first
    else if a.sse != b.sse then a.sse < b.sse
    else if a.absNet != b.absNet then a.absNet < b.absNet
    else LexLeq(a.quantities, b.quantities, LotRank)
  }

  function NodeKey(n: Node): Key { Key(n.bound, n.state.sse, Abs(n.state.net), n.state.quantities) }

  predicate NodeLeq(a: Node, b: Node) { KeyLeq(NodeKey(a), NodeKey(b)) }

  function FinalKey(st: State): Key { Key(st.sse + Square(st.net), st.sse, Abs(st.net), st.quantities) }

  predicate FinalLeq(a: State, b: State) { KeyLeq(FinalKey(a), FinalKey(b)) }

  function MinNat(a: nat, b: nat): nat { if a <= b then a else b }

  function Kept(nodes: seq<Node>, width: nat): seq<State> {
    seq(MinNat(width, |nodes|), i requires 0 <= i < MinNat(width, |nodes|) => nodes[i].state)
  }

  /** The beam after the first `k` lines. */
  function Layer(lines: seq<Line>, sectors: nat, width: nat, k: nat): seq<State>
    requires k <= |lines| && HasOptions(lines)
    decreases k, 0
  {
    if k == 0 then [Initial(sectors)] else Kept(Ranked(lines, sectors, width, k - 1), width)
  }

  /** Everything the beam of `k` lines expands to, best bound first. */
  function Ranked(lines: seq<Line>, sectors: nat, width: nat, k: nat): seq<Node>
    requires k < |lines| && HasOptions(lines)
    decreases k, 1
  {
    SortBy(Expand(lines, k, Layer(lines, sectors, width, k)), NodeLeq)
  }

  /** What the beam cuts off after line `k`. */
  function Dropped(lines: seq<Line>, sectors: nat, width: nat, k: nat): seq<Node>
    requires k < |lines| && HasOptions(lines)
  {
    var r := Ranked(lines, sectors, width, k);
    r[MinNat(width, |r|)..]
  }

  // ---------------------------------------------------------------- totals of a choice

  lemma ExposureAppend(m: Measure, lines: seq<Line>, q: seq<int>, x: int)
    requires |q| < |lines|
    ensures Exposure(m, lines, q + [x])
         == Exposure(m, lines, q) + Contribution(m, WeightOf(lines[|q|], x), lines[|q|].sector)
  {
    var w := Realized(lines, q + [x]);
    assert w[..|q|] == Realized(lines, q);
  }

  lemma ErrorAppend(lines: seq<Line>, q: seq<int>, x: int)
    requires |q| < |lines|
    ensures SquaredError(lines, q + [x]) == SquaredError(lines, q) + ErrorOf(lines[|q|], x)
  {
    assert (q + [x])[..|q|] == q;
  }

  /** The totals recomputed from the lots alone. */
  ghost function StateFor(lines: seq<Line>, sectors: nat, q: seq<int>): State
    requires |q| <= |lines|
  {
    State(SquaredError(lines, q), Exposure(Net, lines, q), Exposure(Gross, lines, q),
          seq(sectors, s requires 0 <= s < sectors => Exposure(Sector(s), lines, q)), q)
  }

  lemma InitialTracks(lines: seq<Line>, sectors: nat)
    ensures Initial(sectors) == StateFor(lines, sectors, [])
  {
    assert Realized(lines, []) == [];
  }

  lemma GrowTracks(lines: seq<Line>, sectors: nat, q: seq<int>, x: int)
    requires |q| < |lines|
    ensures Grow(lines[|q|], StateFor(lines, sectors, q), x) == StateFor(lines, sectors, q + [x])
  {
    var l, a, b := lines[|q|], Grow(lines[|q|], StateFor(lines, sectors, q), x), StateFor(lines, sectors, q + [x]);
    ExposureAppend(Net, lines, q, x);
    ExposureAppend(Gross, lines, q, x);
    ErrorAppend(lines, q, x);
    forall s: nat | s < sectors ensures a.sectorGross[s] == b.sectorGross[s] {
      ExposureAppend(Sector(s), lines, q, x);
    }
    assert a.sectorGross == b.sectorGross;
  }

  /** The running cap checks decide exactly whether the longer choice meets the caps. */
  lemma PassesIffAdmits(lines: seq<Line>, sectors: nat, q: seq<int>, x: int)
    requires WellFormed(lines, sectors) && |q| < |lines| && Admits(lines, sectors, q)
    requires x in lines[|q|].options
    ensures PassesCaps(lines[|q|], Grow(lines[|q|], StateFor(lines, sectors, q), x))
       <==> Admits(lines, sectors, q + [x])
  {
    var l := lines[|q|];
    GrowTracks(lines, sectors, q, x);
    forall s: nat | s < sectors && s != l.sector
      ensures Exposure(Sector(s), lines, q + [x]) == Exposure(Sector(s), lines, q)
    {
      ExposureAppend(Sector(s), lines, q, x);
    }
  }

  /** Caps on the whole hold on every prefix: pruning early never loses an admissible choice. */
  lemma PrefixAdmits(lines: seq<Line>, sectors: nat, q: seq<int>)
    requires Admits(lines, sectors, q) && q != []
    ensures Admits(lines, sectors, q[..|q| - 1])
  {
    var n := |q| - 1;
    assert q == q[..n] + [q[n]];
    ExposureAppend(Gross, lines, q[..n], q[n]);
    forall s: nat | s < sectors ensures StrictlyBelow(Exposure(Sector(s), lines, q[..n]), SECTOR_CAP) {
      ExposureAppend(Sector(s), lines, q[..n], q[n]);
    }
  }

  lemma {:induction false} TakeAdmits(lines: seq<Line>, sectors: nat, q: seq<int>, k: nat)
    requires Admits(lines, sectors, q) && k <= |q|
    ensures Admits(lines, sectors, q[..k])
    decreases |q| - k
  {
    if k == |q| {
      assert q[..k] == q;
    } else {
      TakeAdmits(lines, sectors, q, k + 1);
      PrefixAdmits(lines, sectors, q[..k + 1]);
      assert q[..k + 1][..k] == q[..k];
    }
  }

  // ---------------------------------------------------------------- the bound

  lemma NearestMonotone(low: real, high: real, low': real, high': real)
    requires low <= low' <= high' <= high
    ensures 0.0 <= NearestToZero(low, high) <= NearestToZero(low', high')
  {}

  lemma SuffixOrder(lines: seq<Line>, k: nat)
    requires k <= |lines| && HasOptions(lines)
    ensures SuffixMinNet(lines, k) <= SuffixMaxNet(lines, k)
    decreases |lines| - k
  {
    if k < |lines| {
      SuffixOrder(lines, k + 1);
      var w := OptionWeights(lines[k]);
      assert MinReal(w) <= MaxReal(w);
    }
  }

  ghost function Bound(lines: seq<Line>, q: seq<int>): real
    requires |q| <= |lines| && HasOptions(lines)
  {
    LowerBound(lines, |q|, SquaredError(lines, q), Exposure(Net, lines, q))
  }

  /** One step of the bound, on the numbers alone. */
  lemma BoundStep(sse: real, restE: real, net: real, low: real, high: real,
                  sse': real, restE': real, net': real, low': real, high': real)
    requires sse + restE <= sse' + restE'
    requires net + low <= net' + low' <= net' + high' <= net + high
    ensures BoundFrom(sse, restE, net, low, high) <= BoundFrom(sse', restE', net', low', high')
  {
    NearestMonotone(net + low, net + high, net' + low', net' + high');
    SquareMonotone(NearestToZero(net + low, net + high), NearestToZero(net' + low', net' + high'));
  }

  /** Extending a choice never lowers its bound. */
  lemma BoundMonotone(lines: seq<Line>, q: seq<int>, x: int)
    requires |q| < |lines| && HasOptions(lines) && x in lines[|q|].options
    ensures Bound(lines, q) <= Bound(lines, q + [x])
  {
    var l, k, q' := lines[|q|], |q|, q + [x];
    ExposureAppend(Net, lines, q, x);
    ErrorAppend(lines, q, x);
    SuffixOrder(lines, k + 1);
    assert WeightOf(l, x) in OptionWeights(l) && ErrorOf(l, x) in OptionErrors(l);
    BoundStep(SquaredError(lines, q), SuffixMinError(lines, k), Exposure(Net, lines, q),
              SuffixMinNet(lines, k), SuffixMaxNet(lines, k),
              SquaredError(lines, q'), SuffixMinError(lines, k + 1), Exposure(Net, lines, q'),
              SuffixMinNet(lines, k + 1), SuffixMaxNet(lines, k + 1));
  }

  /** With no line left the bound is the objective. */
  lemma BoundAtEnd(lines: seq<Line>, q: seq<int>)
    requires |q| == |lines| && HasOptions(lines)
    ensures Bound(lines, q) == Objective(lines, q)
  {
    SquareNearest(Exposure(Net, lines, q));
  }

  lemma SquareNearest(x: real)
    ensures Square(NearestToZero(x + 0.0, x + 0.0)) == Square(x)
  {}

  /** The bound of a partial choice is below the objective of each of its completions. */
  lemma {:induction false} BoundAdmissible(lines: seq<Line>, q: seq<int>, k: nat)
    requires |q| == |lines| && HasOptions(lines) && k <= |q|
    requires forall i :: 0 <= i < |q| ==> q[i] in lines[i].options
    ensures Bound(lines, q[..k]) <= Objective(lines, q)
    decreases |q| - k
  {
    if k == |q| {
      assert q[..k] == q;
      BoundAtEnd(lines, q);
    } else {
      BoundAdmissible(lines, q, k + 1);
      assert q[..k + 1] == q[..k] + [q[k]];
      BoundMonotone(lines, q[..k], q[k]);
    }
  }

  // ---------------------------------------------------------------- the bound is as tight as its three parts allow

  /** `e` completes the partial choice `q` with options. */
  ghost predicate Completes(lines: seq<Line>, q: seq<int>, e: seq<int>) {
    |e| == |lines| && q <= e && forall i :: |q| <= i < |e| ==> e[i] in lines[i].options
  }

  lemma OptionOfWeight(l: Line, w: real) returns (x: int)
    requires w in OptionWeights(l)
    ensures x in l.options && WeightOf(l, x) == w
  {
    var i :| 0 <= i < |l.options| && OptionWeights(l)[i] == w;
    x := l.options[i];
  }

  lemma OptionOfError(l: Line, e: real) returns (x: int)
    requires e in OptionErrors(l)
    ensures x in l.options && ErrorOf(l, x) == e
  {
    var i :| 0 <= i < |l.options| && OptionErrors(l)[i] == e;
    x := l.options[i];
  }

  lemma CompletesFurther(lines: seq<Line>, q: seq<int>, x: int, e: seq<int>)
    requires |q| < |lines| && x in lines[|q|].options && Completes(lines, q + [x], e)
    ensures Completes(lines, q, e)
  {
    assert e[|q|] == (q + [x])[|q|];
  }

  lemma {:induction false} LeastError(lines: seq<Line>, q: seq<int>) returns (e: seq<int>)
    requires HasOptions(lines) && |q| <= |lines|
    ensures Completes(lines, q, e) && SquaredError(lines, e) == SquaredError(lines, q) + SuffixMinError(lines, |q|)
    decreases |lines| - |q|
  {
    e := q;
    if |q| < |lines| {
      var x := OptionOfError(lines[|q|], MinReal(OptionErrors(lines[|q|])));
      ErrorAppend(lines, q, x);
      e := LeastError(lines, q + [x]);
      CompletesFurther(lines, q, x, e);
    }
  }

  lemma {:induction false} LowestNet(lines: seq<Line>, q: seq<int>) returns (e: seq<int>)
    requires HasOptions(lines) && |q| <= |lines|
    ensures Completes(lines, q, e) && Exposure(Net, lines, e) == Exposure(Net, lines, q) + SuffixMinNet(lines, |q|)
    decreases |lines| - |q|
  {
    e := q;
    if |q| < |lines| {
      var x := OptionOfWeight(lines[|q|], MinReal(OptionWeights(lines[|q|])));
      ExposureAppend(Net, lines, q, x);
      e := LowestNet(lines, q + [x]);
      CompletesFurther(lines, q, x, e);
    }
  }

  lemma {:induction false} HighestNet(lines: seq<Line>, q: seq<int>) returns (e: seq<int>)
    requires HasOptions(lines) && |q| <= |lines|
    ensures Completes(lines, q, e) && Exposure(Net, lines, e) == Exposure(Net, lines, q) + SuffixMaxNet(lines, |q|)
    decreases |lines| - |q|
  {
    e := q;
    if |q| < |lines| {
      var x := OptionOfWeight(lines[|q|], MaxReal(OptionWeights(lines[|q|])));
      ExposureAppend(Net, lines, q, x);
      e := HighestNet(lines, q + [x]);
      CompletesFurther(lines, q, x, e);
    }
  }

  /**
   The bound is reached part by part: some completion has its error, and its penalty is the net of the completion with
   the lowest net when that is positive, of the one with the highest when that is negative, and otherwise nothing.
   */
  lemma BoundReached(lines: seq<Line>, q: seq<int>) returns (least: seq<int>, low: seq<int>, high: seq<int>)
    requires HasOptions(lines) && |q| <= |lines|
    ensures Completes(lines, q, least) && Completes(lines, q, low) && Completes(lines, q, high)
    ensures Exposure(Net, lines, low) <= Exposure(Net, lines, high)
    ensures var n, m := Exposure(Net, lines, low), Exposure(Net, lines, high);
      Bound(lines, q) == SquaredError(lines, least) + if n > 0.0 then Times(n, n) else if m < 0.0 then Times(m, m) else 0.0
  {
    hide Completes, SquaredError, Exposure, SuffixMinError, SuffixMinNet, SuffixMaxNet, Square, Times, NearestToZero;
    least := LeastError(lines, q);
    low := LowestNet(lines, q);
    high := HighestNet(lines, q);
    SuffixOrder(lines, |q|);
    PenaltyOf(Exposure(Net, lines, low), Exposure(Net, lines, high));
  }

  lemma PenaltyOf(n: real, m: real)
    requires n <= m
    ensures Square(NearestToZero(n, m)) == if n > 0.0 then Times(n, n) else if m < 0.0 then Times(m, m) else 0.0
  {}
}
