/**
 The roll-safe index of one product: the point-in-time main contract of each day, the index level compounded
 from the old main's own settlements, and the trend signal read off the level.
 */
module RollIndex {
  import opened Optional
  import opened Sorting
  import opened Clock
  import opened SourceHistory
  import opened RealMath

  predicate Eligible(c: Contract, day: Date) { c.delivery > YearMonth(day) && c.settlement > 0.0 && c.openInterest > 0.0 }

  function EligibleOf(contracts: seq<Contract>, day: Date): seq<Contract> {
    if contracts == [] then []
    else (if Eligible(contracts[0], day) then [contracts[0]] else []) + EligibleOf(contracts[1..], day)
  }

  /** Larger open interest first, then the earlier delivery, then the name. */
  function MainLeq(a: Contract, b: Contract): bool {
    a.openInterest > b.openInterest
    || (a.openInterest == b.openInterest && (a.delivery < b.delivery || (a.delivery == b.delivery && LexLeq(a.name, b.name, Code))))
  }

  /** The day's eligible contracts, best first, if there are at least three. */
  function Ranking(d: Daily): Option<seq<Contract>> {
    var eligible := EligibleOf(d.contracts, d.day);
    if |eligible| < 3 then None else Some(SortBy(eligible, MainLeq))
  }

  lemma {:induction false} EligibleExact(contracts: seq<Contract>, day: Date, c: Contract)
    ensures c in EligibleOf(contracts, day) <==> c in contracts && Eligible(c, day)
  {
    if contracts != [] {
      EligibleExact(contracts[1..], day, c);
      assert contracts == [contracts[0]] + contracts[1..];
    }
  }

  lemma MainOrder()
    ensures TotalPreorder(MainLeq)
  {
    forall x, y ensures MainLeq(x, y) || MainLeq(y, x) { LexTotal(x.name, y.name, Code); }
    forall x, y, z | MainLeq(x, y) && MainLeq(y, z) ensures MainLeq(x, z) { MainTransitive(x, y, z); }
  }

  lemma MainTransitive(x: Contract, y: Contract, z: Contract)
    requires MainLeq(x, y) && MainLeq(y, z)
    ensures MainLeq(x, z)
  {
    if LexLeq(x.name, y.name, Code) && LexLeq(y.name, z.name, Code) {
      LexTransitive(x.name, y.name, z.name, Code);
    }
  }

  lemma RankingMembers(d: Daily, c: Contract)
    requires Ranking(d).Some?
    ensures c in Ranking(d).value <==> c in d.contracts && Eligible(c, d.day)
    ensures |Ranking(d).value| >= 3
  {
    SortPermutes(EligibleOf(d.contracts, d.day), MainLeq);
    EligibleExact(d.contracts, d.day, c);
  }

  function Main(d: Daily): (c: Contract)
    requires Ranking(d).Some?
    ensures c in d.contracts && Eligible(c, d.day)
  {
    RankingMembers(d, Ranking(d).value[0]);
    Ranking(d).value[0]
  }

  /**
   The main contract delivers after the day's month and trades, and among all such contracts it has the largest open
   interest, then the earliest delivery, then the first name; no other contract can say so.
   */
  lemma MainIsBest(d: Daily, c: Contract)
    requires Ranking(d).Some? && c in d.contracts && c.delivery > d.day / 100 && c.settlement > 0.0 && c.openInterest > 0.0
    ensures var m := Main(d);
      && m in d.contracts && m.delivery > d.day / 100 && m.settlement > 0.0 && m.openInterest > 0.0
      && m.openInterest >= c.openInterest
      && (m.openInterest == c.openInterest ==> m.delivery <= c.delivery)
      && (m.openInterest == c.openInterest && m.delivery == c.delivery ==> TextFirst(m.name, c.name))
    ensures (forall x :: x in d.contracts && Eligible(x, d.day) ==> MainLeq(c, x)) ==> Main(d).name == c.name
  {
    hide TextFirst;
    TextLeqMeans(Main(d).name, c.name);
    var ranked := Ranking(d).value;
    MainOrder();
    SortSorted(EligibleOf(d.contracts, d.day), MainLeq);
    RankingMembers(d, c);
    var i :| 0 <= i < |ranked| && ranked[i] == c;
    assert i == 0 || MainLeq(ranked[0], ranked[i]);
    LexTotal(c.name, c.name, Code);
    LexTotal(Main(d).name, c.name, Code);
  }

  // ---------------------------------------------------------------- listing order

  lemma {:induction false} EligibleCounts(contracts: seq<Contract>, day: Date, c: Contract)
    ensures multiset(EligibleOf(contracts, day))[c] == if Eligible(c, day) then multiset(contracts)[c] else 0
  {
    if contracts != [] {
      EligibleCounts(contracts[1..], day, c);
      assert contracts == [contracts[0]] + contracts[1..];
    }
  }

  /** There is a ranking exactly when at least three listed contracts deliver later and trade; it lists exactly those. */
  lemma RankingExact(d: Daily, c: Contract)
    ensures Ranking(d).Some? <==> |EligibleOf(d.contracts, d.day)| >= 3
    ensures multiset(EligibleOf(d.contracts, d.day))[c]
         == if c.delivery > d.day / 100 && c.settlement > 0.0 && c.openInterest > 0.0 then multiset(d.contracts)[c] else 0
    ensures Ranking(d).Some? ==> multiset(Ranking(d).value) == multiset(EligibleOf(d.contracts, d.day))
  {
    EligibleCounts(d.contracts, d.day, c);
    SortPermutes(EligibleOf(d.contracts, d.day), MainLeq);
  }

  /** The ranking, and so the main contract, does not depend on the listing order. */
  lemma RankingOrderIndependent(a: Daily, b: Daily)
    requires SameDay(a, b) && DistinctBy(a.contracts, NameOf)
    ensures Ranking(a) == Ranking(b)
  {
    var x, y := EligibleOf(a.contracts, a.day), EligibleOf(b.contracts, b.day);
    forall c ensures multiset(x)[c] == multiset(y)[c] {
      EligibleCounts(a.contracts, a.day, c);
      EligibleCounts(b.contracts, b.day, c);
    }
    assert multiset(x) == multiset(y);
    SameElements(x, y);
    DistinctTellsApart(a.contracts, NameOf);
    forall p, q | p in x && q in x && MainLeq(p, q) && MainLeq(q, p) ensures p == q {
      EligibleExact(a.contracts, a.day, p);
      EligibleExact(a.contracts, a.day, q);
      LexTotal(p.name, q.name, Code);
      assert NameOf(p) == NameOf(q);
    }
    MainOrder();
    SortOrderIndependent(x, y, MainLeq);
  }

  // ---------------------------------------------------------------- the index

  /** A contract's settlement in a day's listing; the last entry of a name wins. */
  function Settlement(contracts: seq<Contract>, name: string): Option<real> {
    if contracts == [] then None
    else
      var n := |contracts| - 1;
      if contracts[n].name == name then Some(contracts[n].settlement) else Settlement(contracts[..n], name)
  }

  /** From one day to the next: the old main's settlement over what it was. */
  function Ratio(before: Daily, d: Daily): Option<real>
    requires Ranking(before).Some?
  {
    var main := Main(before);
    var comparable := Settlement(d.contracts, main.name);
    if comparable.None? || comparable.value <= 0.0 then None else Some(comparable.value / main.settlement)
  }

  /** Every day has a main contract, and every old main is still priced the day after. */
  ghost predicate Indexable(days: seq<Daily>) {
    && (forall i :: 0 <= i < |days| ==> Ranking(days[i]).Some?)
    && forall i :: 0 < i < |days| ==> Ratio(days[i - 1], days[i]).Some?
  }

  ghost function RatioAt(days: seq<Daily>, i: int): (r: real)
    requires Indexable(days) && 0 < i < |days|
    ensures r > 0.0
  {
    Ratio(days[i - 1], days[i]).value
  }

  /** The product of the day ratios after day `i` up to day `j`. */
  ghost function Compound(days: seq<Daily>, i: int, j: int): (r: real)
    requires Indexable(days) && 0 <= i <= j < |days|
    ensures r > 0.0
    decreases j - i
  {
    if i == j then 1.0 else Times(Compound(days, i, j - 1), RatioAt(days, j))
  }

  ghost predicate LevelsExact(days: seq<Daily>, levels: seq<real>)
    requires Indexable(days)
  {
    |levels| == |days| && forall i :: 0 <= i < |days| ==> levels[i] == Compound(days, 0, i)
  }

  ghost predicate RatiosExact(days: seq<Daily>, ratios: seq<real>)
    requires Indexable(days)
  {
    |ratios| == (if days == [] then 0 else |days| - 1) && forall i :: 0 <= i < |ratios| ==> ratios[i] == RatioAt(days, i + 1)
  }

  lemma Associates(a: real, b: real, c: real)
    ensures Times(Times(a, b), c) == Times(a, Times(b, c))
  {}

  /** Compounding over two stretches is compounding over both. */
  lemma {:induction false} CompoundSplits(days: seq<Daily>, i: int, j: int, k: int)
    requires Indexable(days) && 0 <= i <= j <= k < |days|
    ensures Compound(days, i, k) == Times(Compound(days, i, j), Compound(days, j, k))
    decreases k
  {
    if j < k {
      CompoundSplits(days, i, j, k - 1);
      Associates(Compound(days, i, j), Compound(days, j, k - 1), RatioAt(days, k));
    }
  }

  lemma Quotient(a: real, b: real, c: real)
    requires a > 0.0 && c == Times(a, b)
    ensures c / a == b
  {}

  /** The level ratio over any horizon is the product of the old mains' settlement ratios over it. */
  lemma LevelRatio(days: seq<Daily>, levels: seq<real>, i: int, j: int)
    requires Indexable(days) && LevelsExact(days, levels) && 0 <= i <= j < |days|
    ensures levels[i] > 0.0 && levels[j] / levels[i] == Compound(days, i, j)
  {
    hide Times, Compound, Indexable;
    CompoundSplits(days, 0, i, j);
    Quotient(Compound(days, 0, i), Compound(days, i, j), Compound(days, 0, j));
  }

  // ---------------------------------------------------------------- the signal

  const HORIZONS: seq<nat> := [21, 63, 126]
  const WARMUP: nat := 126
  const LOOKBACK: nat := 60
  const FLOOR := 0.05

  /** Annualized volatility of a list of day ratios, as the program computes it from their logarithms. */
  type Volatility = seq<real> -> real

  datatype Signal = Signal(signs: seq<int>, score: real, risk: real, level: real, main: string)

  /** The sign of the logarithm of a positive ratio. */
  function TrendSign(ratio: real): int { if ratio > 1.0 then 1 else if ratio < 1.0 then -1 else 0 }

  function Larger(a: real, b: real): real { if a >= b then a else b }

  function Score(signs: seq<int>): real
    requires |signs| == 3
  {
    (signs[0] + signs[1] + signs[2]) as real / 3.0
  }

  function RiskScore(score: real, vol60: real): real { score / Larger(vol60, FLOOR) }

  ghost function SignOver(days: seq<Daily>, h: nat): int
    requires Indexable(days) && h < |days|
  {
    TrendSign(Compound(days, |days| - 1 - h, |days| - 1))
  }

  ghost function LastRatios(days: seq<Daily>): seq<real>
    requires Indexable(days) && |days| > WARMUP
  {
    seq(LOOKBACK, k requires 0 <= k < LOOKBACK => RatioAt(days, |days| - LOOKBACK + k))
  }

  ghost predicate SignalDefined(days: seq<Daily>, vol: Volatility) {
    Indexable(days) && |days| > WARMUP && vol(LastRatios(days)) > 0.0
  }

  ghost function SignalOf(days: seq<Daily>, vol: Volatility): (s: Signal)
    requires SignalDefined(days, vol)
    ensures |s.signs| == |HORIZONS|
  {
    var last := |days| - 1;
    var signs := [SignOver(days, 21), SignOver(days, 63), SignOver(days, 126)];
    var score := Score(signs);
    Signal(signs, score, RiskScore(score, vol(LastRatios(days))), Compound(days, 0, last), Main(days[last]).name)
  }

  lemma IndexableStep(days: seq<Daily>, n: nat)
    requires n < |days| && Indexable(days[..n])
    ensures n > 0 ==> Ranking(days[n - 1]).Some?
    ensures Indexable(days[..n + 1]) <==> Ranking(days[n]).Some? && (n > 0 ==> Ratio(days[n - 1], days[n]).Some?)
    ensures Indexable(days) ==> Indexable(days[..n + 1])
  {
    hide Ranking, Ratio;
    var p, q := days[..n], days[..n + 1];
    assert forall i :: 0 <= i < n ==> q[i] == p[i];
    assert q[n] == days[n];
  }

  lemma {:induction false} PrefixCompound(days: seq<Daily>, more: seq<Daily>, i: int, j: int)
    requires Indexable(days) && Indexable(more) && 0 <= i <= j < |days| <= |more| && days == more[..|days|]
    ensures Compound(days, i, j) == Compound(more, i, j)
    decreases j
  {
    if i < j {
      PrefixCompound(days, more, i, j - 1);
      assert days[j] == more[j] && days[j - 1] == more[j - 1];
    }
  }

  /** The loop over days: selects the main, compounds the index level, keeps levels and ratios. */
  method BuildIndex(days: seq<Daily>) returns (r: Option<(seq<real>, seq<real>)>)
    ensures r.Some? <==> Indexable(days)
    ensures r.Some? ==> |r.value.0| == |days| && LevelsExact(days, r.value.0) && RatiosExact(days, r.value.1)
  {
    hide Indexable, LevelsExact, RatiosExact, Times, Ranking, Ratio;
    var levels: seq<real>, ratios: seq<real>, level := [], [], 1.0;
    NoDays(days);
    for n := 0 to |days|
      invariant Indexable(days[..n])
      invariant LevelsExact(days[..n], levels) && RatiosExact(days[..n], ratios)
      invariant |levels| == n && (n == 0 ==> ratios == []) && level == if n == 0 then 1.0 else levels[n - 1]
    {
      IndexableStep(days, n);
      FirstDay(days, n);
      if Ranking(days[n]).None? {
        return None;
      }
      if n > 0 {
        var ratio := Ratio(days[n - 1], days[n]);
        if ratio.None? {
          return None;
        }
        IndexStep(days, n, levels, ratios, ratio.value);
        ratios, level := ratios + [ratio.value], Times(level, ratio.value);
      }
      assert n == 0 ==> levels + [level] == [1.0];
      levels := levels + [level];
    }
    assert days[..|days|] == days;
    return Some((levels, ratios));
  }

  lemma NoDays(days: seq<Daily>)
    ensures Indexable(days[..0]) && LevelsExact(days[..0], []) && RatiosExact(days[..0], [])
  {}

  lemma FirstDay(days: seq<Daily>, n: nat)
    requires n < |days|
    ensures n == 0 && Indexable(days[..1]) ==> LevelsExact(days[..1], [1.0]) && RatiosExact(days[..1], [])
  {}

  lemma IndexStep(days: seq<Daily>, n: nat, levels: seq<real>, ratios: seq<real>, ratio: real)
    requires 0 < n < |days| && Indexable(days[..n]) && Indexable(days[..n + 1])
    requires LevelsExact(days[..n], levels) && RatiosExact(days[..n], ratios)
    requires Some(ratio) == Ratio(days[n - 1], days[n])
    ensures LevelsExact(days[..n + 1], levels + [Times(levels[n - 1], ratio)]) && RatiosExact(days[..n + 1], ratios + [ratio])
  {
    var p, q := days[..n], days[..n + 1];
    assert q[n] == days[n] && q[n - 1] == days[n - 1] && RatioAt(q, n) == ratio;
    assert p == q[..n];
    forall i | 0 <= i < n ensures Compound(p, 0, i) == Compound(q, 0, i) {
      PrefixCompound(p, q, 0, i);
    }
    forall i | 0 < i < n ensures RatioAt(p, i) == RatioAt(q, i) {
      assert p[i] == q[i] && p[i - 1] == q[i - 1];
    }
  }

  lemma LevelIs(days: seq<Daily>, levels: seq<real>, i: int)
    requires Indexable(days) && LevelsExact(days, levels) && 0 <= i < |days|
    ensures levels[i] == Compound(days, 0, i)
  {}

  /** The product signal. */
  method BuildProductSignal(days: seq<Daily>, vol: Volatility) returns (r: Option<Signal>)
    ensures r.Some? <==> SignalDefined(days, vol)
    ensures r.Some? ==> r.value == SignalOf(days, vol)
    ensures r.Some? ==> var v := vol(LastRatios(days)); Times(r.value.risk, if v >= 0.05 then v else 0.05) == r.value.score
  {
    hide Compound, RatioAt, Ranking, Ratio, LevelsExact, Score, RiskScore, SignalOf, Times;
    var index := BuildIndex(days);
    if index.None? {
      return None;
    }
    var levels, ratios := index.value.0, index.value.1;
    if |levels| < WARMUP + 1 || |ratios| < LOOKBACK {
      return None;
    }
    var n := |levels|;
    LevelRatio(days, levels, n - 1 - 21, n - 1);
    LevelRatio(days, levels, n - 1 - 63, n - 1);
    LevelRatio(days, levels, n - 1 - 126, n - 1);
    LevelIs(days, levels, n - 1);
    var signs := [TrendSign(levels[n - 1] / levels[n - 1 - HORIZONS[0]]), TrendSign(levels[n - 1] / levels[n - 1 - HORIZONS[1]]),
                  TrendSign(levels[n - 1] / levels[n - 1 - HORIZONS[2]])];
    var recent := ratios[|ratios| - LOOKBACK..];
    assert recent == LastRatios(days);
    var vol60 := vol(recent);
    if vol60 <= 0.0 {
      return None;
    }
    var score := Score(signs);
    SignalIs(days, vol, signs, levels[n - 1]);
    ScoreAndRiskExact(days, vol);
    return Some(Signal(signs, score, RiskScore(score, vol60), levels[n - 1], Main(days[n - 1]).name));
  }

  lemma SignalIs(days: seq<Daily>, vol: Volatility, signs: seq<int>, level: real)
    requires SignalDefined(days, vol) && level == Compound(days, 0, |days| - 1)
    requires signs == [SignOver(days, 21), SignOver(days, 63), SignOver(days, 126)]
    ensures SignalOf(days, vol)
         == Signal(signs, Score(signs), RiskScore(Score(signs), vol(LastRatios(days))), level, Main(days[|days| - 1]).name)
  {
    hide Compound, SignOver, Score, RiskScore, LastRatios;
  }

  lemma SignAt(days: seq<Daily>, vol: Volatility, k: nat)
    requires SignalDefined(days, vol) && k < |HORIZONS|
    ensures HORIZONS[k] <= WARMUP && SignalOf(days, vol).signs[k] == SignOver(days, HORIZONS[k])
  {
    hide Indexable, SignOver, LastRatios, Score, RiskScore, Compound;
    assert k == 0 || k == 1 || k == 2;
  }

  lemma SignOverExact(days: seq<Daily>, h: nat)
    requires Indexable(days) && h < |days|
    ensures var c := Compound(days, |days| - 1 - h, |days| - 1);
      && (SignOver(days, h) == 1 <==> c > 1.0) && (SignOver(days, h) == -1 <==> c < 1.0) && -1 <= SignOver(days, h) <= 1
  {
    hide Indexable, Compound;
  }

  /** A trend sign compares the compounded old-main ratios of its horizon with one. */
  lemma TrendExact(days: seq<Daily>, vol: Volatility, k: nat)
    requires SignalDefined(days, vol) && k < |HORIZONS|
    ensures HORIZONS[k] < |days|
    ensures var c := Compound(days, |days| - 1 - HORIZONS[k], |days| - 1);
      && (SignalOf(days, vol).signs[k] == 1 <==> c > 1.0)
      && (SignalOf(days, vol).signs[k] == -1 <==> c < 1.0)
      && -1 <= SignalOf(days, vol).signs[k] <= 1
  {
    hide Indexable, Compound, SignOver, SignalOf;
    SignAt(days, vol, k);
    SignOverExact(days, HORIZONS[k]);
  }

  lemma DividedBack(a: real, b: real)
    requires b > 0.0
    ensures Times(a / b, b) == a
  {}

  /** One for a product above one, minus one below it. */
  function Direction(compound: real): real { (if compound > 1.0 then 1.0 else 0.0) - (if compound < 1.0 then 1.0 else 0.0) }

  lemma ScoreOf(signs: seq<int>, short: real, middle: real, long: real)
    requires signs == [TrendSign(short), TrendSign(middle), TrendSign(long)]
    ensures 3.0 * Score(signs) == Direction(short) + Direction(middle) + Direction(long)
  {}

  /**
   The source score is a third of the rising horizons less the falling ones, and the risk score is that score over the
   volatility of the last sixty ratios, or over 0.05 where the volatility is less.
   */
  lemma ScoreAndRiskExact(days: seq<Daily>, vol: Volatility)
    requires SignalDefined(days, vol)
    ensures var n := |days| - 1;
      3.0 * SignalOf(days, vol).score
      == Direction(Compound(days, n - 21, n)) + Direction(Compound(days, n - 63, n)) + Direction(Compound(days, n - 126, n))
    ensures var s, v := SignalOf(days, vol), vol(LastRatios(days));
      Times(s.risk, if v >= 0.05 then v else 0.05) == s.score
  {
    hide Compound, Indexable, LastRatios, Score, Direction, TrendSign, Times;
    var n := |days| - 1;
    var s, v := SignalOf(days, vol), vol(LastRatios(days));
    ScoreOf(s.signs, Compound(days, n - 21, n), Compound(days, n - 63, n), Compound(days, n - 126, n));
    DividedBack(s.score, if v >= 0.05 then v else 0.05);
  }

  lemma DividedBound(a: real, b: real)
    requires -1.0 <= a <= 1.0 && b >= FLOOR
    ensures -20.0 <= a / b <= 20.0
  {
    var q := a / b;
    assert q * b == a;
    assert (20.0 - q) * b == 20.0 * b - a && (20.0 + q) * b == 20.0 * b + a;
    FactorNonNegative(20.0 - q, b);
    FactorNonNegative(20.0 + q, b);
  }

  lemma FactorNonNegative(x: real, b: real)
    requires b > 0.0 && x * b >= 0.0
    ensures x >= 0.0
  {}

  /** The volatility floor bounds every raw risk score by twenty. */
  lemma RiskBounded(days: seq<Daily>, vol: Volatility)
    requires SignalDefined(days, vol)
    ensures -20.0 <= SignalOf(days, vol).risk <= 20.0
  {
    hide Compound, Indexable;
    DividedBound(SignalOf(days, vol).score, Larger(vol(LastRatios(days)), FLOOR));
  }

  // ---------------------------------------------------------------- causality

  /** A history that can be indexed can be indexed from any earlier research day. */
  lemma PrefixIndexable(days: seq<Daily>, n: nat)
    requires n <= |days| && Indexable(days)
    ensures Indexable(days[..n])
  {
    hide Ranking, Ratio;
  }

  /** Levels up to a day are the same whatever the days after it. */
  lemma LevelsAreCausal(a: seq<Daily>, b: seq<Daily>, n: nat, levels: seq<real>, others: seq<real>)
    requires n <= |a| && n <= |b| && a[..n] == b[..n]
    requires Indexable(a) && Indexable(b) && LevelsExact(a, levels) && LevelsExact(b, others)
    ensures levels[..n] == others[..n]
  {
    hide Compound;
    PrefixIndexable(a, n);
    forall i | 0 <= i < n ensures levels[i] == others[i] {
      PrefixCompound(a[..n], a, 0, i);
      PrefixCompound(b[..n], b, 0, i);
    }
  }

  /** The volatility window is the last sixty ratios: nothing before the last sixty-one days enters it. */
  lemma VolatilityWindow(a: seq<Daily>, b: seq<Daily>)
    requires Indexable(a) && Indexable(b) && |a| > WARMUP && |b| > WARMUP
    requires a[|a| - 61..] == b[|b| - 61..]
    ensures LastRatios(a) == LastRatios(b)
    ensures |LastRatios(a)| == 60 && forall k :: 0 <= k < 60 ==> LastRatios(a)[k] == RatioAt(a, |a| - 60 + k)
  {
    hide Indexable, RatioAt;
    forall k: nat | k < 60 ensures LastRatios(a)[k] == LastRatios(b)[k] {
      WindowRatio(a, b, k);
    }
    assert forall k :: 0 <= k < 60 ==> LastRatios(a)[k] == RatioAt(a, |a| - 60 + k);
  }

  lemma WindowRatio(a: seq<Daily>, b: seq<Daily>, k: nat)
    requires Indexable(a) && Indexable(b) && |a| > WARMUP && |b| > WARMUP && k < 60
    requires a[|a| - 61..] == b[|b| - 61..]
    ensures LastRatios(a)[k] == LastRatios(b)[k]
  {
    hide Ranking, Ratio;
    var x, y := a[|a| - 61..], b[|b| - 61..];
    assert x[k] == a[|a| - 61 + k] && x[k + 1] == a[|a| - 60 + k];
    assert y[k] == b[|b| - 61 + k] && y[k + 1] == b[|b| - 60 + k];
    assert RatioAt(a, |a| - 60 + k) == RatioAt(b, |b| - 60 + k);
  }

  // ---------------------------------------------------------------- a main that is held

  lemma {:induction false} SettlementOf(contracts: seq<Contract>, c: Contract)
    requires DistinctBy(contracts, NameOf) && c in contracts
    ensures Settlement(contracts, c.name) == Some(c.settlement)
  {
    var n := |contracts| - 1;
    assert contracts == contracts[..n] + [contracts[n]];
    if c in contracts[..n] {
      SettlementOf(contracts[..n], c);
      KeysAppend(contracts[..n], contracts[n], NameOf);
      assert NameOf(c) in Keys(contracts[..n], NameOf);
    }
  }

  lemma Telescopes(compound: real, first: real, before: real, after: real)
    requires before > 0.0 && Times(compound, first) == before
    ensures Times(Times(compound, after / before), first) == after
  {
    assert Times(Times(compound, after / before), first) == Times(after / before, Times(compound, first)) by {
      Rearrange(compound, after / before, first);
    }
  }

  lemma Rearrange(a: real, b: real, c: real)
    ensures Times(Times(a, b), c) == Times(b, Times(a, c))
  {}

  /** While one contract stays the main, the level moves exactly as that contract's own settlements do. */
  lemma {:induction false} HeldMainTelescopes(days: seq<Daily>, i: int, j: int, name: string)
    requires Indexable(days) && 0 <= i < j < |days|
    requires forall k :: i <= k < j ==> Main(days[k]).name == name && DistinctBy(days[k].contracts, NameOf)
    ensures Settlement(days[j].contracts, name).Some? && Settlement(days[i].contracts, name).Some?
    ensures Times(Compound(days, i, j), Settlement(days[i].contracts, name).value) == Settlement(days[j].contracts, name).value
    decreases j
  {
    hide Ranking, Settlement, Times;
    var before := Main(days[j - 1]);
    SettlementOf(days[j - 1].contracts, before);
    if i < j - 1 {
      HeldMainTelescopes(days, i, j - 1, name);
    } else {
      TimesOne(before.settlement);
    }
    RatioIs(days, j);
    Telescopes(Compound(days, i, j - 1), Settlement(days[i].contracts, name).value, before.settlement,
               Settlement(days[j].contracts, name).value);
  }

  lemma TimesOne(x: real)
    ensures Times(1.0, x) == x
  {}

  lemma RatioIs(days: seq<Daily>, j: int)
    requires Indexable(days) && 0 < j < |days|
    ensures var s := Settlement(days[j].contracts, Main(days[j - 1]).name);
      s.Some? && s.value > 0.0 && Main(days[j - 1]).settlement > 0.0 && RatioAt(days, j) == s.value / Main(days[j - 1]).settlement
  {
    hide Ranking;
  }

  // ---------------------------------------------------------------- rolls and rescaled histories

  /** A roll by itself moves nothing: if the old main settles unchanged, the level does not move, whatever the new main is. */
  lemma RollAloneMovesNothing(days: seq<Daily>, i: int)
    requires Indexable(days) && 0 < i < |days|
    requires Settlement(days[i].contracts, Main(days[i - 1]).name) == Some(Main(days[i - 1]).settlement)
    ensures Compound(days, 0, i) == Compound(days, 0, i - 1)
  {
    SelfRatio(Main(days[i - 1]).settlement);
  }

  /** Each contract's prices multiplied by its own positive constant. */
  function RescaledContract(c: Contract, k: string -> real): Contract { c.(settlement := Times(c.settlement, k(c.name))) }

  function RescaledContracts(contracts: seq<Contract>, k: string -> real): seq<Contract> {
    MapBy(contracts, c => RescaledContract(c, k))
  }

  function Rescaled(d: Daily, k: string -> real): Daily { d.(contracts := RescaledContracts(d.contracts, k)) }

  function RescaledDays(days: seq<Daily>, k: string -> real): seq<Daily> { MapBy(days, d => Rescaled(d, k)) }

  ghost predicate Positive(k: string -> real) { forall name :: k(name) > 0.0 }

  lemma SignKept(a: real, k: real)
    requires k > 0.0
    ensures Times(a, k) > 0.0 <==> a > 0.0
  {}

  lemma RatioKept(a: real, b: real, k: real)
    requires k > 0.0 && b != 0.0
    ensures Times(b, k) != 0.0 && Times(a, k) / Times(b, k) == a / b
  {}

  lemma {:induction false} EligibleRescaled(contracts: seq<Contract>, day: Date, k: string -> real)
    requires Positive(k)
    ensures EligibleOf(RescaledContracts(contracts, k), day) == RescaledContracts(EligibleOf(contracts, day), k)
  {
    if contracts != [] {
      var c := contracts[0];
      assert RescaledContracts(contracts, k)[1..] == RescaledContracts(contracts[1..], k);
      EligibleRescaled(contracts[1..], day, k);
      SignKept(c.settlement, k(c.name));
      assert Eligible(RescaledContract(c, k), day) <==> Eligible(c, day);
    }
  }

  lemma RankingRescaled(d: Daily, k: string -> real)
    requires Positive(k)
    ensures Ranking(Rescaled(d, k)).Some? == Ranking(d).Some?
    ensures Ranking(d).Some? ==> Main(Rescaled(d, k)) == RescaledContract(Main(d), k)
  {
    EligibleRescaled(d.contracts, d.day, k);
    SortMaps(EligibleOf(d.contracts, d.day), MainLeq, MainLeq, c => RescaledContract(c, k));
  }

  lemma {:induction false} SettlementRescaled(contracts: seq<Contract>, name: string, k: string -> real)
    ensures var s, r := Settlement(contracts, name), Settlement(RescaledContracts(contracts, k), name);
      r == if s.None? then None else Some(Times(s.value, k(name)))
  {
    if contracts != [] {
      var n := |contracts| - 1;
      assert RescaledContracts(contracts, k)[..n] == RescaledContracts(contracts[..n], k);
      SettlementRescaled(contracts[..n], name, k);
    }
  }

  lemma RatioRescaled(before: Daily, d: Daily, k: string -> real)
    requires Positive(k) && Ranking(before).Some?
    ensures Ranking(Rescaled(before, k)).Some? && Ratio(Rescaled(before, k), Rescaled(d, k)) == Ratio(before, d)
  {
    hide Ranking;
    RankingRescaled(before, k);
    var main := Main(before);
    SettlementRescaled(d.contracts, main.name, k);
    var s := Settlement(d.contracts, main.name);
    if s.Some? {
      SignKept(s.value, k(main.name));
      RatioKept(s.value, main.settlement, k(main.name));
    }
  }

  lemma {:induction false} CompoundRescaled(days: seq<Daily>, k: string -> real, i: int, j: int)
    requires Positive(k) && Indexable(days) && Indexable(RescaledDays(days, k)) && 0 <= i <= j < |days|
    ensures Compound(RescaledDays(days, k), i, j) == Compound(days, i, j)
    decreases j
  {
    hide Times, Ranking, Ratio;
    if i < j {
      CompoundRescaled(days, k, i, j - 1);
      RatioRescaled(days[j - 1], days[j], k);
    }
  }

  lemma IndexableRescaled(days: seq<Daily>, k: string -> real)
    requires Positive(k)
    ensures Indexable(RescaledDays(days, k)) <==> Indexable(days)
  {
    hide Ranking, Ratio;
    forall i | 0 <= i < |days| ensures Ranking(Rescaled(days[i], k)).Some? == Ranking(days[i]).Some? {
      RankingRescaled(days[i], k);
    }
    forall i | 0 < i < |days| && Ranking(days[i - 1]).Some?
      ensures Ratio(Rescaled(days[i - 1], k), Rescaled(days[i], k)) == Ratio(days[i - 1], days[i])
    {
      RatioRescaled(days[i - 1], days[i], k);
    }
  }

  lemma LastRatiosRescaled(days: seq<Daily>, k: string -> real)
    requires Positive(k) && Indexable(days) && Indexable(RescaledDays(days, k)) && |days| > WARMUP
    ensures LastRatios(RescaledDays(days, k)) == LastRatios(days)
  {
    hide Ranking, Ratio;
    forall i | 0 < i < |days| ensures RatioAt(RescaledDays(days, k), i) == RatioAt(days, i) {
      RatioRescaled(days[i - 1], days[i], k);
    }
  }

  /** Rescaling every contract's whole price history by its own positive constant leaves the signal unchanged. */
  lemma SignalRescaled(days: seq<Daily>, vol: Volatility, k: string -> real)
    requires Positive(k)
    ensures SignalDefined(RescaledDays(days, k), vol) <==> SignalDefined(days, vol)
    ensures SignalDefined(days, vol) ==> SignalOf(RescaledDays(days, k), vol) == SignalOf(days, vol)
  {
    hide Ranking, Ratio, Compound, Indexable, RatioAt;
    IndexableRescaled(days, k);
    if Indexable(days) && |days| > WARMUP {
      LastRatiosRescaled(days, k);
      var n := |days| - 1;
      CompoundRescaled(days, k, n - 21, n);
      CompoundRescaled(days, k, n - 63, n);
      CompoundRescaled(days, k, n - 126, n);
      CompoundRescaled(days, k, 0, n);
      LastRanked(days);
      RankingRescaled(days[n], k);
    }
  }

  lemma LastRanked(days: seq<Daily>)
    requires Indexable(days) && days != []
    ensures Ranking(days[|days| - 1]).Some?
  {}
}
