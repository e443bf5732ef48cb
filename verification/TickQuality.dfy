/** Classifying a segment of ticks, and what the best classification says about every row of it. */
module TickQuality {
  import opened Optional
  import opened RealMath
  import opened TickRows
  import opened TickMetrics

  datatype Quality = L5Usable | Degraded | L1Only | Unusable

  function Severity(q: Quality): nat {
    match q
    case L5Usable => 0
    case Degraded => 1
    case L1Only => 2
    case Unusable => 3
  }

  function WorseOf(a: Quality, b: Quality): Quality { if Severity(b) > Severity(a) then b else a }

  /** The most severe of a list; nothing at all is unusable. */
  function Worst(qs: seq<Quality>): Quality {
    if qs == [] then Unusable
    else if |qs| == 1 then qs[0]
    else WorseOf(Worst(qs[..|qs| - 1]), qs[|qs| - 1])
  }

  /** A list is as good as its worst member: perfect exactly when it is non-empty and every member is. */
  lemma {:induction false} WorstExact(qs: seq<Quality>)
    ensures Worst(qs) == L5Usable <==> qs != [] && forall q :: q in qs ==> q == L5Usable
    ensures forall q :: q in qs ==> Severity(q) <= Severity(Worst(qs))
    ensures qs != [] ==> Worst(qs) in qs
  {
    if |qs| == 1 {
      assert qs[0] in qs;
    } else if |qs| > 1 {
      var n := |qs| - 1;
      WorstExact(qs[..n]);
      assert qs == qs[..n] + [qs[n]];
      assert qs[n] in qs;
      forall q | q in qs[..n] ensures q in qs {}
      if forall q :: q in qs ==> q == L5Usable {
        assert Worst(qs[..n]) == L5Usable;
      }
    }
  }

  /** Unusable outweighs L1-only, which outweighs degraded, which outweighs usable. */
  lemma WorstLadder(qs: seq<Quality>)
    ensures Worst(qs) == Unusable <==> qs == [] || Unusable in qs
    ensures Worst(qs) == L1Only <==> Unusable !in qs && L1Only in qs
    ensures Worst(qs) == Degraded <==> Unusable !in qs && L1Only !in qs && Degraded in qs
  {
    WorstExact(qs);
  }

  /** The grades of a list of graded results. */
  function GradesOf<T>(s: seq<T>, grade: T -> Quality): (qs: seq<Quality>)
    ensures |qs| == |s| && forall i :: 0 <= i < |qs| ==> qs[i] == grade(s[i])
  {
    seq(|s|, i requires 0 <= i < |s| => grade(s[i]))
  }

  /** `round(numerator / denominator, 9)`, zero when there is nothing to divide. */
  function Ratio(n: nat, d: nat): real {
    if d == 0 then 0.0 else RoundHalfEven(n as real / d as real * 1000000000.0) as real / 1000000000.0
  }

  const MIN_L1 := 0.995
  const MIN_L5 := 0.95
  const MAX_STALE := 0.01
  const MAX_SKEW := 0.001
  const MAX_CROSSED := 0.0001
  const MAX_LOCKED := 0.05
  const MAX_INVERTED := 0.001
  const MIN_VOLUME_MATCH := 0.95
  const MIN_POSITIVE_DELTAS: nat := 10

  /** Identity problems of which a usable segment has none. */
  function FatalFacts(): seq<Fact> {
    [MissingReceived, MissingId, MissingSeq, WrongDay, MissingPrice, RepeatedId, NonPositiveSeq, SeqNotIncreasing,
     RepeatedTsSeq]
  }

  ghost predicate VolumeValidated(c: Tally) {
    && c(VolumeIncrease) >= MIN_POSITIVE_DELTAS
    && c(VolumeDecrease) == 0 && c(ChangeWithoutLast) == 0 && c(LastWithoutChange) == 0
    && Ratio(c(VolumeMatch), c(VolumeIncrease)) >= MIN_VOLUME_MATCH
  }

  ghost predicate RatiosAcceptable(c: Tally, n: nat) {
    && Ratio(c(Stale), n) <= MAX_STALE
    && Ratio(c(Skewed), n) <= MAX_SKEW
    && Ratio(c(Crossed), n) <= MAX_CROSSED
    && Ratio(c(Locked), n) <= MAX_LOCKED
    && Ratio(c(Inverted(Bid)), n) <= MAX_INVERTED
    && Ratio(c(Inverted(Ask)), n) <= MAX_INVERTED
  }

  /** The verdict on a stream, from the counts of its facts. */
  ghost function ClassifyTally(c: Tally, n: nat): Quality {
    if n == 0 || Ratio(c(L1Complete), n) < MIN_L1 then Unusable
    else if Ratio(c(L5Complete), n) < MIN_L5 then L1Only
    else if RatiosAcceptable(c, n) && (forall f :: f in FatalFacts() ==> c(f) == 0) && VolumeValidated(c) then L5Usable
    else Degraded
  }

  ghost function Classify(rows: seq<Row>, day: Option<string>): Quality { ClassifyTally(TallyOf(rows, day), |rows|) }

  /** The program's own classification, read off its counters. */
  function ClassifyCounters(n: nat, flow: Flow, market: Market): Quality {
    if n == 0 || Ratio(market.depth.l1, n) < MIN_L1 then Unusable
    else if Ratio(market.depth.l5, n) < MIN_L5 then L1Only
    else if
      Ratio(flow.latency.stale, n) > MAX_STALE || Ratio(flow.latency.skewed, n) > MAX_SKEW
      || Ratio(market.depth.crossed, n) > MAX_CROSSED || Ratio(market.depth.locked, n) > MAX_LOCKED
      || Ratio(market.depth.bidInverted, n) > MAX_INVERTED || Ratio(market.depth.askInverted, n) > MAX_INVERTED
      || flow.identity.missingReceived > 0 || flow.identity.missingId > 0 || flow.identity.missingSeq > 0
      || flow.identity.wrongDay > 0 || flow.identity.missingPrice > 0 || flow.identity.duplicateIds > 0
      || flow.identity.nonPositiveSeq > 0 || flow.sequence.notIncreasing > 0 || flow.cadence.duplicateTsSeq > 0
      || market.volume.rises < MIN_POSITIVE_DELTAS || market.volume.falls > 0
      || market.volume.changeWithoutLast > 0 || market.volume.lastWithoutChange > 0
      || Ratio(market.volume.matches, market.volume.rises) < MIN_VOLUME_MATCH
    then Degraded
    else L5Usable
  }

  lemma SameTally(c: Tally, c': Tally, rows: seq<Row>, day: Option<string>, f: Fact)
    requires IsTally(c, rows, day) && IsTally(c', rows, day)
    ensures c(f) == c'(f)
  {
    assert c(f) == Count(f, rows, day);
  }

  lemma CountersAgree(n: nat, flow: Flow, market: Market, c: Tally, rows: seq<Row>)
    requires FlowMatches(flow, c, rows) && MarketMatches(market, c, rows)
    ensures ClassifyCounters(n, flow, market) == ClassifyTally(c, n)
  {
    hide Ratio;
  }

  lemma TallyDecides(c: Tally, c': Tally, rows: seq<Row>, day: Option<string>, n: nat)
    requires IsTally(c, rows, day) && IsTally(c', rows, day)
    ensures ClassifyTally(c, n) == ClassifyTally(c', n)
  {
    forall f ensures c(f) == c'(f) { SameTally(c, c', rows, day, f); }
  }

  // ---------------------------------------------------------------- the thresholds in counts

  lemma RoundsUpTo(x: real, m: int)
    requires m % 2 == 0
    ensures RoundHalfEven(x) <= m <==> x <= m as real + 0.5
    ensures RoundHalfEven(x) >= m <==> x >= m as real - 0.5
  {}

  lemma ScaledShare(n: nat, d: nat, y: real)
    requires d > 0
    ensures n as real / d as real * 1000000000.0 <= y <==> n as real <= Times(y / 1000000000.0, d as real)
    ensures n as real / d as real * 1000000000.0 >= y <==> n as real >= Times(y / 1000000000.0, d as real)
  {
    var q, k := n as real / d as real, y / 1000000000.0;
    assert Times(q, d as real) == n as real;
    if q <= k {
      MulMonotone(q, k, d as real);
    } else {
      MulStrict(k, q, d as real);
    }
    if q >= k {
      MulMonotone(k, q, d as real);
    } else {
      MulStrict(q, k, d as real);
    }
  }

  lemma MulStrict(a: real, b: real, c: real)
    requires a < b && c > 0.0
    ensures Times(a, c) < Times(b, c)
  {
    assert (b - a) * c > 0.0;
  }

  /** A share rounded to nine decimals, compared with an even number of those units, in counts. */
  lemma ShareExact(n: nat, d: nat, m: int)
    requires d > 0 && m % 2 == 0
    ensures Ratio(n, d) <= m as real / 1000000000.0 <==> n as real <= Times((m as real + 0.5) / 1000000000.0, d as real)
    ensures Ratio(n, d) >= m as real / 1000000000.0 <==> n as real >= Times((m as real - 0.5) / 1000000000.0, d as real)
  {
    hide RoundHalfEven, Times;
    RoundsUpTo(n as real / d as real * 1000000000.0, m);
    ScaledShare(n, d, m as real + 0.5);
    ScaledShare(n, d, m as real - 0.5);
  }

  /** No more than the allowed share of rows is stale, skewed, crossed, locked or inverted, to half a ninth decimal. */
  ghost predicate FewFlawed(c: Tally, n: real) {
    && c(Stale) as real <= 0.0100000005 * n && c(Skewed) as real <= 0.0010000005 * n
    && c(Crossed) as real <= 0.0001000005 * n && c(Locked) as real <= 0.0500000005 * n
    && c(Inverted(Bid)) as real <= 0.0010000005 * n && c(Inverted(Ask)) as real <= 0.0010000005 * n
  }

  lemma TimesLiteral(n: real)
    ensures Times((10000000 as real + 0.5) / 1000000000.0, n) == 0.0100000005 * n
    ensures Times((1000000 as real + 0.5) / 1000000000.0, n) == 0.0010000005 * n
    ensures Times((100000 as real + 0.5) / 1000000000.0, n) == 0.0001000005 * n
    ensures Times((50000000 as real + 0.5) / 1000000000.0, n) == 0.0500000005 * n
    ensures Times((995000000 as real - 0.5) / 1000000000.0, n) == 0.9949999995 * n
    ensures Times((950000000 as real - 0.5) / 1000000000.0, n) == 0.9499999995 * n
  {}

  lemma FewFlawedExact(c: Tally, n: nat)
    requires n > 0
    ensures RatiosAcceptable(c, n) <==> FewFlawed(c, n as real)
  {
    hide Ratio, Times;
    ShareExact(c(Stale), n, 10000000);
    ShareExact(c(Skewed), n, 1000000);
    ShareExact(c(Crossed), n, 100000);
    ShareExact(c(Locked), n, 50000000);
    ShareExact(c(Inverted(Bid)), n, 1000000);
    ShareExact(c(Inverted(Ask)), n, 1000000);
    TimesLiteral(n as real);
  }

  /** None of the identity problems, spelled out. */
  ghost predicate NothingFatal(c: Tally) {
    && c(MissingReceived) == 0 && c(MissingId) == 0 && c(MissingSeq) == 0 && c(WrongDay) == 0 && c(MissingPrice) == 0
    && c(RepeatedId) == 0 && c(NonPositiveSeq) == 0 && c(SeqNotIncreasing) == 0 && c(RepeatedTsSeq) == 0
  }

  /** Volume moved up at least ten times and never down, always with a last volume, and 95% of the rises equal it. */
  ghost predicate VolumeConsistent(c: Tally) {
    && c(VolumeIncrease) >= 10 && c(VolumeDecrease) == 0 && c(ChangeWithoutLast) == 0 && c(LastWithoutChange) == 0
    && c(VolumeMatch) as real >= 0.9499999995 * c(VolumeIncrease) as real
  }

  lemma VolumeExact(c: Tally)
    ensures VolumeValidated(c) <==> VolumeConsistent(c)
  {
    hide Ratio, Times;
    if c(VolumeIncrease) >= 10 {
      ShareExact(c(VolumeMatch), c(VolumeIncrease), 950000000);
      TimesLiteral(c(VolumeIncrease) as real);
    }
  }

  lemma FatalExact(c: Tally)
    ensures (forall f :: f in FatalFacts() ==> c(f) == 0) <==> NothingFatal(c)
  {
    var s := FatalFacts();
    assert s[0] in s && s[1] in s && s[2] in s && s[3] in s && s[4] in s && s[5] in s && s[6] in s && s[7] in s && s[8] in s;
  }

  lemma DepthExact(c: Tally, n: nat)
    requires n > 0
    ensures Ratio(c(L1Complete), n) < MIN_L1 <==> c(L1Complete) as real < 0.9949999995 * n as real
    ensures Ratio(c(L5Complete), n) < MIN_L5 <==> c(L5Complete) as real < 0.9499999995 * n as real
  {
    hide Ratio, Times;
    ShareExact(c(L1Complete), n, 995000000);
    ShareExact(c(L5Complete), n, 950000000);
    TimesLiteral(n as real);
  }

  /** The grade in counts alone: every share is compared without a division or a rounding. */
  ghost predicate GradeByCounts(c: Tally, n: nat, q: Quality) {
    match q
    case Unusable => n == 0 || c(L1Complete) as real < 0.9949999995 * n as real
    case L1Only =>
      n > 0 && c(L1Complete) as real >= 0.9949999995 * n as real && c(L5Complete) as real < 0.9499999995 * n as real
    case L5Usable =>
      && n > 0 && c(L1Complete) as real >= 0.9949999995 * n as real && c(L5Complete) as real >= 0.9499999995 * n as real
      && FewFlawed(c, n as real) && NothingFatal(c) && VolumeConsistent(c)
    case Degraded =>
      && n > 0 && c(L1Complete) as real >= 0.9949999995 * n as real && c(L5Complete) as real >= 0.9499999995 * n as real
      && !(FewFlawed(c, n as real) && NothingFatal(c) && VolumeConsistent(c))
  }

  /** A stream has a grade exactly when its counts say so. */
  lemma ClassifiedByCounts(rows: seq<Row>, day: Option<string>, q: Quality)
    ensures Classify(rows, day) == q <==> GradeByCounts(TallyOf(rows, day), |rows|, q)
  {
    hide Ratio, RatiosAcceptable, VolumeValidated, FatalFacts, FewFlawed, NothingFatal, VolumeConsistent, TallyOf;
    if rows != [] {
      var c := TallyOf(rows, day);
      DepthExact(c, |rows|);
      FewFlawedExact(c, |rows|);
      FatalExact(c);
      VolumeExact(c);
    }
  }

  /** The streaming classification is the declarative one, and what the counts of the rows say. */
  method Result(acc: MetricsAccumulator) returns (q: Quality)
    requires acc.Valid()
    ensures q == Classify(acc.rows, acc.day)
    ensures GradeByCounts(TallyOf(acc.rows, acc.day), |acc.rows|, q)
  {
    ClassifiedByCounts(acc.rows, acc.day, Classify(acc.rows, acc.day));
    q := ClassifyCounters(acc.rowCount, acc.flow, acc.market);
    CountersAgree(acc.rowCount, acc.flow, acc.market, acc.tally, acc.rows);
    TallyDecides(acc.tally, TallyOf(acc.rows, acc.day), acc.rows, acc.day, acc.rowCount);
  }

  // ---------------------------------------------------------------- what L5_USABLE means

  lemma {:induction false} NoneCounted(f: Fact, rows: seq<Row>, day: Option<string>, i: nat)
    requires i < |rows| && Count(f, rows, day) == 0
    ensures !Holds(f, rows, i, day)
    decreases |rows|
  {
    var n := |rows| - 1;
    if i < n {
      NoneCounted(f, rows[..n], day, i);
      PrefixHoldsAt(f, rows[..n], rows, i, day);
    }
  }

  /** Every row is fully identified, on the right day, and numbered consistently with its neighbours. */
  ghost predicate WellIdentified(rows: seq<Row>, day: string) {
    && (forall i :: 0 <= i < |rows| ==>
          && rows[i].receivedAt.Some? && rows[i].ingestId != "" && rows[i].tradingDay == day
          && Positive(rows[i].lastPrice) && rows[i].ingestSeq.Some? && rows[i].ingestSeq.value > 0)
    && (forall i, j :: 0 <= i < j < |rows| ==> rows[i].ingestId != rows[j].ingestId)
    && (forall i :: 0 < i < |rows| && rows[i - 1].ts < rows[i].ts ==> rows[i - 1].ingestSeq.value < rows[i].ingestSeq.value)
  }

  /** A usable segment has at least one row and every row of it is well identified. */
  lemma UsableMeansIdentified(rows: seq<Row>, day: string)
    requires Classify(rows, Some(day)) == L5Usable && day != ""
    ensures rows != [] && WellIdentified(rows, day)
  {
    NoFatalFact(rows, day, 0);
    NoFatalFact(rows, day, 1);
    NoFatalFact(rows, day, 2);
    NoFatalFact(rows, day, 3);
    NoFatalFact(rows, day, 4);
    NoFatalFact(rows, day, 5);
    NoFatalFact(rows, day, 6);
    NoFatalFact(rows, day, 7);
    IdentifiedRows(rows, day);
    DistinctIds(rows, Some(day));
    IncreasingSeqs(rows, day);
  }

  /** The shares of a usable segment, in counts of its rows. */
  ghost predicate SharesWithinLimits(rows: seq<Row>, day: Option<string>) {
    var n := |rows| as real;
    && Count(L1Complete, rows, day) as real >= 0.9949999995 * n
    && Count(L5Complete, rows, day) as real >= 0.9499999995 * n
    && Count(Stale, rows, day) as real <= 0.0100000005 * n
    && Count(Skewed, rows, day) as real <= 0.0010000005 * n
    && Count(Crossed, rows, day) as real <= 0.0001000005 * n
    && Count(Locked, rows, day) as real <= 0.0500000005 * n
    && Count(Inverted(Bid), rows, day) as real <= 0.0010000005 * n
    && Count(Inverted(Ask), rows, day) as real <= 0.0010000005 * n
    && Count(VolumeIncrease, rows, day) >= 10
    && Count(VolumeMatch, rows, day) as real >= 0.9499999995 * Count(VolumeIncrease, rows, day) as real
  }

  lemma UsableShares(rows: seq<Row>, day: Option<string>)
    requires Classify(rows, day) == L5Usable
    ensures rows != [] && SharesWithinLimits(rows, day)
  {
    hide Count;
    ClassifiedByCounts(rows, day, L5Usable);
  }

  lemma NoFatalFact(rows: seq<Row>, day: string, k: nat)
    requires Classify(rows, Some(day)) == L5Usable && k < |FatalFacts()|
    ensures rows != [] && Count(FatalFacts()[k], rows, Some(day)) == 0
  {
    assert FatalFacts()[k] in FatalFacts();
    assert TallyOf(rows, Some(day))(FatalFacts()[k]) == 0;
  }

  lemma IdentifiedRows(rows: seq<Row>, day: string)
    requires Count(MissingReceived, rows, Some(day)) == Count(MissingId, rows, Some(day)) == 0
    requires Count(MissingSeq, rows, Some(day)) == Count(WrongDay, rows, Some(day)) == 0
    requires Count(MissingPrice, rows, Some(day)) == Count(NonPositiveSeq, rows, Some(day)) == 0
    ensures forall i :: 0 <= i < |rows| ==>
      && rows[i].receivedAt.Some? && rows[i].ingestId != "" && rows[i].tradingDay == day
      && Positive(rows[i].lastPrice) && rows[i].ingestSeq.Some? && rows[i].ingestSeq.value > 0
  {
    var d := Some(day);
    forall i | 0 <= i < |rows|
      ensures rows[i].receivedAt.Some? && rows[i].ingestId != "" && rows[i].tradingDay == day
      ensures Positive(rows[i].lastPrice) && rows[i].ingestSeq.Some? && rows[i].ingestSeq.value > 0
    {
      NoneCounted(MissingReceived, rows, d, i);
      NoneCounted(MissingId, rows, d, i);
      NoneCounted(MissingSeq, rows, d, i);
      NoneCounted(WrongDay, rows, d, i);
      NoneCounted(MissingPrice, rows, d, i);
      NoneCounted(NonPositiveSeq, rows, d, i);
    }
  }

  lemma DistinctIds(rows: seq<Row>, day: Option<string>)
    requires Count(RepeatedId, rows, day) == 0 && forall i :: 0 <= i < |rows| ==> rows[i].ingestId != ""
    ensures forall i, j :: 0 <= i < j < |rows| ==> rows[i].ingestId != rows[j].ingestId
  {
    forall i, j | 0 <= i < j < |rows| ensures rows[i].ingestId != rows[j].ingestId {
      NoneCounted(RepeatedId, rows, day, j);
    }
  }

  lemma IncreasingSeqs(rows: seq<Row>, day: string)
    requires Count(SeqNotIncreasing, rows, Some(day)) == 0
    requires forall i :: 0 <= i < |rows| ==> rows[i].ingestSeq.Some?
    ensures forall i :: 0 < i < |rows| && rows[i - 1].ts < rows[i].ts ==> rows[i - 1].ingestSeq.value < rows[i].ingestSeq.value
  {
    forall i | 0 < i < |rows| && rows[i - 1].ts < rows[i].ts
      ensures rows[i - 1].ingestSeq.value < rows[i].ingestSeq.value
    {
      NoneCounted(SeqNotIncreasing, rows, Some(day), i);
    }
  }
}
