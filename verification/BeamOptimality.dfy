/** What the beam search returns, and when it is the best choice there is. */
module BeamOptimality {
  import opened RealMath
  import opened Book
  import opened Sorting
  import opened BeamSearch

  // ---------------------------------------------------------------- ranking keys

  lemma KeyTotal(a: Key, b: Key)
    ensures KeyLeq(a, b) || KeyLeq(b, a)
  {
    LexTotal(a.quantities, b.quantities, LotRank);
  }

  lemma KeyTransitive(a: Key, b: Key, c: Key)
    requires KeyLeq(a, b) && KeyLeq(b, c)
    ensures KeyLeq(a, c)
  {
    if LexLeq(a.quantities, b.quantities, LotRank) && LexLeq(b.quantities, c.quantities, LotRank) {
      LexTransitive(a.quantities, b.quantities, c.quantities, LotRank);
    }
  }

  lemma NodeOrder()
    ensures TotalPreorder(NodeLeq)
  {
    forall x, y ensures NodeLeq(x, y) || NodeLeq(y, x) { KeyTotal(NodeKey(x), NodeKey(y)); }
    forall x, y, z | NodeLeq(x, y) && NodeLeq(y, z) ensures NodeLeq(x, z) {
      KeyTransitive(NodeKey(x), NodeKey(y), NodeKey(z));
    }
  }

  lemma FinalOrder()
    ensures TotalPreorder(FinalLeq)
  {
    forall x, y ensures FinalLeq(x, y) || FinalLeq(y, x) { KeyTotal(FinalKey(x), FinalKey(y)); }
    forall x, y, z | FinalLeq(x, y) && FinalLeq(y, z) ensures FinalLeq(x, z) {
      KeyTransitive(FinalKey(x), FinalKey(y), FinalKey(z));
    }
  }

  // ---------------------------------------------------------------- what a layer holds

  lemma {:induction false} ChildrenExact(lines: seq<Line>, k: nat, st: State, options: seq<int>, nd: Node)
    requires k < |lines| && HasOptions(lines)
    ensures nd in Children(lines, k, st, options) <==>
      exists x :: x in options && PassesCaps(lines[k], Grow(lines[k], st, x))
                  && nd == NodeOf(lines, k + 1, Grow(lines[k], st, x))
  {
    if options != [] {
      var n := |options| - 1;
      ChildrenExact(lines, k, st, options[..n], nd);
      assert options == options[..n] + [options[n]];
    }
  }

  lemma {:induction false} ExpandExact(lines: seq<Line>, k: nat, states: seq<State>, nd: Node)
    requires k < |lines| && HasOptions(lines)
    ensures nd in Expand(lines, k, states) <==>
      exists st :: st in states && nd in Children(lines, k, st, lines[k].options)
  {
    if states != [] {
      var n := |states| - 1;
      ExpandExact(lines, k, states[..n], nd);
      assert states == states[..n] + [states[n]];
      if nd in Expand(lines, k, states) {
        if nd in Children(lines, k, states[n], lines[k].options) {
          assert states[n] in states;
        }
      }
      forall st | st in states && nd in Children(lines, k, st, lines[k].options)
        ensures nd in Expand(lines, k, states)
      {
        assert st in states[..n] || st == states[n];
      }
    }
  }

  /** A state the search may carry after `k` lines: true totals of an admissible choice. */
  ghost predicate Genuine(lines: seq<Line>, sectors: nat, k: nat, st: State) {
    && |st.quantities| == k <= |lines|
    && st == StateFor(lines, sectors, st.quantities)
    && Admits(lines, sectors, st.quantities)
  }

  /** A ranked node is a genuine state with its own bound. */
  ghost predicate GenuineNode(lines: seq<Line>, sectors: nat, k: nat, nd: Node)
    requires HasOptions(lines)
  {
    Genuine(lines, sectors, k, nd.state) && nd.bound == Bound(lines, nd.state.quantities)
  }

  lemma ChildGenuine(lines: seq<Line>, sectors: nat, k: nat, st: State, nd: Node)
    requires WellFormed(lines, sectors) && HasOptions(lines) && k < |lines|
    requires Genuine(lines, sectors, k, st) && nd in Children(lines, k, st, lines[k].options)
    ensures GenuineNode(lines, sectors, k + 1, nd)
  {
    ChildrenExact(lines, k, st, lines[k].options, nd);
    var x :| x in lines[k].options && PassesCaps(lines[k], Grow(lines[k], st, x))
             && nd == NodeOf(lines, k + 1, Grow(lines[k], st, x));
    GrowTracks(lines, sectors, st.quantities, x);
    PassesIffAdmits(lines, sectors, st.quantities, x);
  }

  lemma RankedExact(lines: seq<Line>, sectors: nat, width: nat, k: nat, nd: Node)
    requires HasOptions(lines) && k < |lines|
    ensures nd in Ranked(lines, sectors, width, k) <==>
      exists st :: st in Layer(lines, sectors, width, k) && nd in Children(lines, k, st, lines[k].options)
  {
    SortPermutes(Expand(lines, k, Layer(lines, sectors, width, k)), NodeLeq);
    ExpandExact(lines, k, Layer(lines, sectors, width, k), nd);
  }

  lemma {:induction false} LayerGenuine(lines: seq<Line>, sectors: nat, width: nat, k: nat)
    requires WellFormed(lines, sectors) && HasOptions(lines) && k <= |lines|
    ensures forall st :: st in Layer(lines, sectors, width, k) ==> Genuine(lines, sectors, k, st)
    decreases k, 0
  {
    if k == 0 {
      InitialTracks(lines, sectors);
      assert Realized(lines, []) == [];
    } else {
      hide Genuine;
      RankedGenuine(lines, sectors, width, k - 1);
      var r := Ranked(lines, sectors, width, k - 1);
      forall st | st in Layer(lines, sectors, width, k) ensures Genuine(lines, sectors, k, st) {
        var i :| 0 <= i < MinNat(width, |r|) && r[i].state == st;
        assert r[i] in r;
      }
    }
  }

  lemma {:induction false} RankedGenuine(lines: seq<Line>, sectors: nat, width: nat, k: nat)
    requires WellFormed(lines, sectors) && HasOptions(lines) && k < |lines|
    ensures forall nd :: nd in Ranked(lines, sectors, width, k) ==> GenuineNode(lines, sectors, k + 1, nd)
    decreases k, 1
  {
    LayerGenuine(lines, sectors, width, k);
    forall nd | nd in Ranked(lines, sectors, width, k) ensures GenuineNode(lines, sectors, k + 1, nd) {
      RankedExact(lines, sectors, width, k, nd);
      var st :| st in Layer(lines, sectors, width, k) && nd in Children(lines, k, st, lines[k].options);
      ChildGenuine(lines, sectors, k, st, nd);
    }
  }

  lemma ExtensionIsChild(lines: seq<Line>, sectors: nat, q: seq<int>, x: int)
    requires WellFormed(lines, sectors) && HasOptions(lines) && |q| < |lines|
    requires Admits(lines, sectors, q) && Admits(lines, sectors, q + [x])
    ensures Node(Bound(lines, q + [x]), StateFor(lines, sectors, q + [x]))
         in Children(lines, |q|, StateFor(lines, sectors, q), lines[|q|].options)
  {
    var k, st := |q|, StateFor(lines, sectors, q);
    assert x == (q + [x])[k];
    GrowTracks(lines, sectors, q, x);
    PassesIffAdmits(lines, sectors, q, x);
    ChildrenExact(lines, k, st, lines[k].options, NodeOf(lines, k + 1, Grow(lines[k], st, x)));
    StateNode(lines, sectors, q + [x]);
  }

  lemma StateNode(lines: seq<Line>, sectors: nat, q: seq<int>)
    requires HasOptions(lines) && |q| <= |lines|
    ensures NodeOf(lines, |q|, StateFor(lines, sectors, q)) == Node(Bound(lines, q), StateFor(lines, sectors, q))
  {}

  /** Every admissible extension of a kept choice is ranked. */
  lemma ExtensionRanked(lines: seq<Line>, sectors: nat, width: nat, q: seq<int>, x: int)
    requires WellFormed(lines, sectors) && HasOptions(lines) && |q| < |lines|
    requires StateFor(lines, sectors, q) in Layer(lines, sectors, width, |q|)
    requires Admits(lines, sectors, q) && Admits(lines, sectors, q + [x])
    ensures Node(Bound(lines, q + [x]), StateFor(lines, sectors, q + [x])) in Ranked(lines, sectors, width, |q|)
  {
    ExtensionIsChild(lines, sectors, q, x);
    RankedExact(lines, sectors, width, |q|, Node(Bound(lines, q + [x]), StateFor(lines, sectors, q + [x])));
  }

  /** A ranked node either survives into the next layer or is dropped. */
  lemma KeptOrDropped(lines: seq<Line>, sectors: nat, width: nat, k: nat, nd: Node)
    requires HasOptions(lines) && k < |lines| && nd in Ranked(lines, sectors, width, k)
    ensures nd.state in Layer(lines, sectors, width, k + 1) || nd in Dropped(lines, sectors, width, k)
  {
    var r := Ranked(lines, sectors, width, k);
    var i :| 0 <= i < |r| && r[i] == nd;
    var cut := MinNat(width, |r|);
    if i < cut {
      assert Layer(lines, sectors, width, k + 1)[i] == nd.state;
    } else {
      assert Dropped(lines, sectors, width, k)[i - cut] == nd;
    }
  }

  /**
   The beam cuts from the bottom, and only when it is full: nothing dropped comes before anything kept, by bound, then
   by error, then by absolute net, then by lots.
   */
  lemma DroppedAreWorst(lines: seq<Line>, sectors: nat, width: nat, k: nat, st: State, nd: Node)
    requires WellFormed(lines, sectors) && HasOptions(lines) && k < |lines|
    requires st in Layer(lines, sectors, width, k + 1) && nd in Dropped(lines, sectors, width, k)
    ensures |Layer(lines, sectors, width, k + 1)| == width
    ensures |st.quantities| == |nd.state.quantities| == k + 1 && Bound(lines, st.quantities) <= nd.bound
    ensures var a, b := st.quantities, nd.state.quantities;
      Bound(lines, a) == nd.bound ==>
        && SquaredError(lines, a) <= SquaredError(lines, b)
        && (SquaredError(lines, a) == SquaredError(lines, b) ==>
              && Abs(Exposure(Net, lines, a)) <= Abs(Exposure(Net, lines, b))
              && (Abs(Exposure(Net, lines, a)) == Abs(Exposure(Net, lines, b)) ==> LotsFirst(a, b)))
  {
    hide Admits, NodeLeq, Bound, SquaredError, Exposure, LotsFirst;
    var r := Ranked(lines, sectors, width, k);
    var cut := MinNat(width, |r|);
    RankedGenuine(lines, sectors, width, k);
    var i, j := KeptBeforeDropped(lines, sectors, width, k, st, nd);
    assert r[i] in r && r[j] in r;
    NodeLeqMeans(lines, sectors, k + 1, r[i], r[j]);
  }

  lemma KeptBeforeDropped(lines: seq<Line>, sectors: nat, width: nat, k: nat, st: State, nd: Node) returns (i: nat, j: nat)
    requires HasOptions(lines) && k < |lines|
    requires st in Layer(lines, sectors, width, k + 1) && nd in Dropped(lines, sectors, width, k)
    ensures var r := Ranked(lines, sectors, width, k);
      i < j < |r| && r[i].state == st && r[j] == nd && NodeLeq(r[i], r[j]) && |r| > width
  {
    hide NodeLeq;
    var r := Ranked(lines, sectors, width, k);
    var cut := MinNat(width, |r|);
    NodeOrder();
    SortSorted(Expand(lines, k, Layer(lines, sectors, width, k)), NodeLeq);
    i :| 0 <= i < cut && r[i].state == st;
    var d :| 0 <= d < |r| - cut && r[cut..][d] == nd;
    j := cut + d;
  }

  lemma NodeLeqMeans(lines: seq<Line>, sectors: nat, k: nat, a: Node, b: Node)
    requires HasOptions(lines) && GenuineNode(lines, sectors, k, a) && GenuineNode(lines, sectors, k, b) && NodeLeq(a, b)
    ensures var q, p := a.state.quantities, b.state.quantities;
      && |q| == |p| == k <= |lines| && Bound(lines, q) <= b.bound
      && (Bound(lines, q) == b.bound ==>
            && SquaredError(lines, q) <= SquaredError(lines, p)
            && (SquaredError(lines, q) == SquaredError(lines, p) ==>
                  && Abs(Exposure(Net, lines, q)) <= Abs(Exposure(Net, lines, p))
                  && (Abs(Exposure(Net, lines, q)) == Abs(Exposure(Net, lines, p)) ==> LotsFirst(q, p))))
  {
    hide Admits, Bound, SquaredError, Exposure, LotsFirst;
    LotsOrder(a.state.quantities, b.state.quantities);
  }

  // ---------------------------------------------------------------- the certificate

  /** `value` is at most the bound of everything the beam dropped. */
  ghost predicate Certified(lines: seq<Line>, sectors: nat, width: nat, value: real)
    requires HasOptions(lines)
  {
    forall k: nat, nd :: k < |lines| && nd in Dropped(lines, sectors, width, k) ==> value <= nd.bound
  }

  ghost predicate NothingDropped(lines: seq<Line>, sectors: nat, width: nat)
    requires HasOptions(lines)
  {
    forall k: nat :: k < |lines| ==> Dropped(lines, sectors, width, k) == []
  }

  /** A feasible choice is still in the beam after `k` lines, or one of its prefixes was dropped. */
  lemma {:induction false} TrackChoice(lines: seq<Line>, sectors: nat, width: nat, q: seq<int>, k: nat)
    requires WellFormed(lines, sectors) && HasOptions(lines)
    requires |q| == |lines| && Admits(lines, sectors, q) && k <= |lines|
    ensures StateFor(lines, sectors, q[..k]) in Layer(lines, sectors, width, k)
         || exists j: nat, nd :: j < k && nd in Dropped(lines, sectors, width, j) && nd.bound <= Objective(lines, q)
  {
    if k == 0 {
      InitialTracks(lines, sectors);
      assert q[..0] == [];
    } else {
      TrackChoice(lines, sectors, width, q, k - 1);
      var p, x := q[..k - 1], q[k - 1];
      if StateFor(lines, sectors, p) in Layer(lines, sectors, width, k - 1) {
        assert q[..k] == p + [x];
        TakeAdmits(lines, sectors, q, k - 1);
        TakeAdmits(lines, sectors, q, k);
        ExtensionRanked(lines, sectors, width, p, x);
        var nd := Node(Bound(lines, p + [x]), StateFor(lines, sectors, p + [x]));
        KeptOrDropped(lines, sectors, width, k - 1, nd);
        BoundAdmissible(lines, q, k);
      }
    }
  }

  function Finalists(states: seq<State>, n: nat): seq<State> {
    if states == [] then []
    else
      var m := |states| - 1;
      Finalists(states[..m], n)
      + (if |states[m].quantities| == n && StrictlyBelow(Abs(states[m].net), NET_CAP) then [states[m]] else [])
  }

  lemma {:induction false} FinalistsExact(states: seq<State>, n: nat, st: State)
    ensures st in Finalists(states, n) <==>
      st in states && |st.quantities| == n && StrictlyBelow(Abs(st.net), NET_CAP)
  {
    if states != [] {
      var m := |states| - 1;
      FinalistsExact(states[..m], n, st);
      assert states == states[..m] + [states[m]];
    }
  }

  function ZeroLots(n: nat): seq<int> { seq(n, i => 0) }

  /** The lots the search returns: the best finalist, or nothing at all. */
  function Chosen(lines: seq<Line>, sectors: nat, width: nat): seq<int>
    requires HasOptions(lines)
  {
    var f := Finalists(Layer(lines, sectors, width, |lines|), |lines|);
    if f == [] then ZeroLots(|lines|) else MinBy(f, FinalLeq).quantities
  }

  lemma {:induction false} ZeroExposure(m: Measure, lines: seq<Line>, n: nat)
    requires n <= |lines|
    ensures Exposure(m, lines, ZeroLots(n)) == 0.0
  {
    if n == 0 {
      assert Realized(lines, ZeroLots(0)) == [];
    } else {
      ZeroExposure(m, lines, n - 1);
      assert ZeroLots(n) == ZeroLots(n - 1) + [0];
      ExposureAppend(m, lines, ZeroLots(n - 1), 0);
    }
  }

  lemma ZeroFeasible(lines: seq<Line>, sectors: nat)
    requires WellFormed(lines, sectors)
    ensures Feasible(lines, sectors, ZeroLots(|lines|))
  {
    ZeroExposure(Net, lines, |lines|);
    ZeroExposure(Gross, lines, |lines|);
    forall s: nat | s < sectors ensures StrictlyBelow(Exposure(Sector(s), lines, ZeroLots(|lines|)), SECTOR_CAP) {
      ZeroExposure(Sector(s), lines, |lines|);
    }
  }

  /** Whatever is cut off, the returned lots meet every cap strictly. */
  lemma ChosenFeasible(lines: seq<Line>, sectors: nat, width: nat)
    requires WellFormed(lines, sectors) && HasOptions(lines)
    ensures Feasible(lines, sectors, Chosen(lines, sectors, width))
  {
    var layer := Layer(lines, sectors, width, |lines|);
    var f := Finalists(layer, |lines|);
    if f == [] {
      ZeroFeasible(lines, sectors);
    } else {
      FinalOrder();
      MinByLeast(f, FinalLeq);
      FinalistsExact(layer, |lines|, MinBy(f, FinalLeq));
      LayerGenuine(lines, sectors, width, |lines|);
    }
  }

  /** A feasible choice that was never cut off cannot beat the returned one, ties included. */
  lemma FinalistBeaten(lines: seq<Line>, sectors: nat, width: nat, q: seq<int>)
    requires WellFormed(lines, sectors) && HasOptions(lines) && Feasible(lines, sectors, q)
    requires StateFor(lines, sectors, q) in Layer(lines, sectors, width, |lines|)
    ensures Feasible(lines, sectors, Chosen(lines, sectors, width))
    ensures FinalLeq(StateFor(lines, sectors, Chosen(lines, sectors, width)), StateFor(lines, sectors, q))
  {
    var layer := Layer(lines, sectors, width, |lines|);
    var f := Finalists(layer, |lines|);
    var st := StateFor(lines, sectors, q);
    FinalistsExact(layer, |lines|, st);
    FinalOrder();
    MinByLeast(f, FinalLeq);
    FinalistsExact(layer, |lines|, MinBy(f, FinalLeq));
    LayerGenuine(lines, sectors, width, |lines|);
    ChosenFeasible(lines, sectors, width);
  }

  /** Something the beam dropped has a bound of at most `value`. */
  ghost predicate Undercut(lines: seq<Line>, sectors: nat, width: nat, value: real)
    requires HasOptions(lines)
  {
    exists k: nat, nd :: k < |lines| && nd in Dropped(lines, sectors, width, k) && nd.bound <= value
  }

  /** Whatever was dropped: only a choice whose objective reaches a dropped bound can do better than the result. */
  lemma BeamGap(lines: seq<Line>, sectors: nat, width: nat, q: seq<int>)
    requires WellFormed(lines, sectors) && HasOptions(lines) && Feasible(lines, sectors, q)
    ensures |Chosen(lines, sectors, width)| == |lines|
    ensures Objective(lines, Chosen(lines, sectors, width)) <= Objective(lines, q)
      || Undercut(lines, sectors, width, Objective(lines, q))
  {
    ChosenFeasible(lines, sectors, width);
    TrackChoice(lines, sectors, width, q, |lines|);
    assert q[..|lines|] == q;
    if StateFor(lines, sectors, q) in Layer(lines, sectors, width, |lines|) {
      FinalistBeaten(lines, sectors, width, q);
    }
  }

  /** So if the returned objective is at most every dropped bound, no feasible choice does better. */
  lemma BeamCertificate(lines: seq<Line>, sectors: nat, width: nat)
    requires WellFormed(lines, sectors) && HasOptions(lines)
    requires |Chosen(lines, sectors, width)| == |lines|
    requires Certified(lines, sectors, width, Objective(lines, Chosen(lines, sectors, width)))
    ensures forall q :: Feasible(lines, sectors, q) ==>
      Objective(lines, Chosen(lines, sectors, width)) <= Objective(lines, q)
  {
    forall q | Feasible(lines, sectors, q)
      ensures Objective(lines, Chosen(lines, sectors, width)) <= Objective(lines, q)
    {
      BeamGap(lines, sectors, width, q);
    }
  }

  /** With nothing dropped the result is the least feasible choice in the full tie-break order. */
  lemma ExhaustiveIsBest(lines: seq<Line>, sectors: nat, width: nat, q: seq<int>)
    requires WellFormed(lines, sectors) && HasOptions(lines)
    requires NothingDropped(lines, sectors, width) && Feasible(lines, sectors, q)
    ensures Feasible(lines, sectors, Chosen(lines, sectors, width))
    ensures FinalLeq(StateFor(lines, sectors, Chosen(lines, sectors, width)), StateFor(lines, sectors, q))
  {
    TrackChoice(lines, sectors, width, q, |lines|);
    assert q[..|lines|] == q;
    FinalistBeaten(lines, sectors, width, q);
  }

  /** The all-zero fallback means the beam cut something off. */
  lemma FallbackNeedsTruncation(lines: seq<Line>, sectors: nat, width: nat)
    requires WellFormed(lines, sectors) && HasOptions(lines)
    requires Finalists(Layer(lines, sectors, width, |lines|), |lines|) == []
    ensures !NothingDropped(lines, sectors, width)
  {
    if NothingDropped(lines, sectors, width) {
      var q := ZeroLots(|lines|);
      ZeroFeasible(lines, sectors);
      TrackChoice(lines, sectors, width, q, |lines|);
      assert q[..|lines|] == q;
      FinalistsExact(Layer(lines, sectors, width, |lines|), |lines|, StateFor(lines, sectors, q));
    }
  }

  /** No line ever empties the beam. */
  lemma {:induction false} NeverDeadEnds(lines: seq<Line>, sectors: nat, width: nat, k: nat)
    requires WellFormed(lines, sectors) && HasOptions(lines) && width > 0 && k < |lines|
    ensures Ranked(lines, sectors, width, k) != [] && Layer(lines, sectors, width, k + 1) != []
    ensures Expand(lines, k, Layer(lines, sectors, width, k)) != []
  {
    if k > 0 {
      NeverDeadEnds(lines, sectors, width, k - 1);
    }
    var layer := Layer(lines, sectors, width, k);
    LayerGenuine(lines, sectors, width, k);
    var st := layer[0];
    assert st in layer;
    ZeroExtends(lines, sectors, st.quantities);
    ExtensionRanked(lines, sectors, width, st.quantities, 0);
    SortPermutes(Expand(lines, k, layer), NodeLeq);
  }

  lemma ZeroExtends(lines: seq<Line>, sectors: nat, q: seq<int>)
    requires WellFormed(lines, sectors) && |q| < |lines| && Admits(lines, sectors, q)
    ensures Admits(lines, sectors, q + [0])
  {
    ExposureAppend(Gross, lines, q, 0);
    forall s: nat | s < sectors ensures StrictlyBelow(Exposure(Sector(s), lines, q + [0]), SECTOR_CAP) {
      ExposureAppend(Sector(s), lines, q, 0);
    }
  }

  // ---------------------------------------------------------------- small books

  /** The number of option tuples of the first `k` lines. */
  function Combinations(lines: seq<Line>, k: nat): nat
    requires k <= |lines|
  {
    if k == 0 then 1 else Combinations(lines, k - 1) * |lines[k - 1].options|
  }

  lemma {:induction false} ChildrenCount(lines: seq<Line>, k: nat, st: State, options: seq<int>)
    requires k < |lines| && HasOptions(lines)
    ensures |Children(lines, k, st, options)| <= |options|
  {
    if options != [] {
      ChildrenCount(lines, k, st, options[..|options| - 1]);
    }
  }

  lemma {:induction false} ExpandCount(lines: seq<Line>, k: nat, states: seq<State>)
    requires k < |lines| && HasOptions(lines)
    ensures |Expand(lines, k, states)| <= |states| * |lines[k].options|
  {
    if states != [] {
      var n := |states| - 1;
      ExpandCount(lines, k, states[..n]);
      ChildrenCount(lines, k, states[n], lines[k].options);
      assert (n + 1) * |lines[k].options| == n * |lines[k].options| + |lines[k].options|;
    }
  }

  lemma MulNat(a: nat, b: nat, c: nat)
    requires a <= b
    ensures a * c <= b * c
    ensures c >= 1 ==> b <= b * c
  {}

  lemma {:induction false} LayerCount(lines: seq<Line>, sectors: nat, width: nat, k: nat)
    requires HasOptions(lines) && k <= |lines|
    ensures |Layer(lines, sectors, width, k)| <= Combinations(lines, k)
  {
    if k > 0 {
      LayerCount(lines, sectors, width, k - 1);
      RankedCount(lines, sectors, width, k - 1);
    }
  }

  lemma RankedCount(lines: seq<Line>, sectors: nat, width: nat, k: nat)
    requires HasOptions(lines) && k < |lines|
    requires |Layer(lines, sectors, width, k)| <= Combinations(lines, k)
    ensures |Ranked(lines, sectors, width, k)| <= Combinations(lines, k + 1)
  {
    var layer := Layer(lines, sectors, width, k);
    SortPermutes(Expand(lines, k, layer), NodeLeq);
    ExpandCount(lines, k, layer);
    MulNat(|layer|, Combinations(lines, k), |lines[k].options|);
  }

  lemma {:induction false} CombinationsGrow(lines: seq<Line>, k: nat, n: nat)
    requires HasOptions(lines) && k <= n <= |lines|
    ensures Combinations(lines, k) <= Combinations(lines, n)
    decreases n
  {
    if k < n {
      CombinationsGrow(lines, k, n - 1);
      MulNat(0, Combinations(lines, n - 1), |lines[n - 1].options|);
    }
  }

  /** A book with no more option tuples than the beam is wide is searched exhaustively. */
  lemma SmallBookExhaustive(lines: seq<Line>, sectors: nat, width: nat)
    requires HasOptions(lines) && Combinations(lines, |lines|) <= width
    ensures NothingDropped(lines, sectors, width)
  {
    forall k: nat | k < |lines| ensures Dropped(lines, sectors, width, k) == [] {
      LayerCount(lines, sectors, width, k);
      RankedCount(lines, sectors, width, k);
      CombinationsGrow(lines, k + 1, |lines|);
    }
  }

  function Pow6(n: nat): nat { if n == 0 then 1 else 6 * Pow6(n - 1) }

  /** Lines with a real choice among the first `k`. */
  function Open(lines: seq<Line>, k: nat): nat
    requires k <= |lines|
  {
    if k == 0 then 0 else Open(lines, k - 1) + if |lines[k - 1].options| > 1 then 1 else 0
  }

  lemma {:induction false} SixPerOpenLine(lines: seq<Line>, k: nat)
    requires HasOptions(lines) && k <= |lines|
    requires forall i :: 0 <= i < |lines| ==> |lines[i].options| <= 6
    ensures Combinations(lines, k) <= Pow6(Open(lines, k))
  {
    if k > 0 {
      SixPerOpenLine(lines, k - 1);
      MulNat(Combinations(lines, k - 1), Pow6(Open(lines, k - 1)), |lines[k - 1].options|);
      MulNat(|lines[k - 1].options|, 6, Pow6(Open(lines, k - 1)));
    }
  }
}
