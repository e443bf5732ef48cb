/** The one-pass accumulator: some forty counters updated row by row, each equal to its count over the whole stream. */
module TickMetrics {
  import opened Optional
  import opened Clock
  import opened TickRows

  // ---------------------------------------------------------------- what the running state remembers

  ghost function IntervalsOf(rows: seq<Row>): seq<Time> {
    if |rows| <= 1 then []
    else
      var n := |rows| - 1;
      IntervalsOf(rows[..n]) + (if rows[n].ts > rows[n - 1].ts then [rows[n].ts - rows[n - 1].ts] else [])
  }

  ghost function LatenciesOf(rows: seq<Row>): seq<Time> {
    if rows == [] then []
    else
      var n := |rows| - 1;
      LatenciesOf(rows[..n]) + (if rows[n].receivedAt.Some? then [rows[n].receivedAt.value - rows[n].ts] else [])
  }

  /** The sequence numbers seen at the latest exchange time. */
  ghost function TrailingSeqs(rows: seq<Row>): set<int> {
    set j | 0 <= j < |rows| && SameInstant(rows, j, |rows| - 1) :: SeqOrZero(rows[j])
  }

  ghost predicate RepeatsInstant(rows: seq<Row>, r: Row) { rows != [] && rows[|rows| - 1].ts == r.ts }

  lemma SameInstantStep(rows: seq<Row>, r: Row, j: nat)
    requires j < |rows|
    ensures SameInstant(rows + [r], j, |rows|) <==> RepeatsInstant(rows, r) && SameInstant(rows, j, |rows| - 1)
  {
    var all, n := rows + [r], |rows|;
    if SameInstant(all, j, n) {
      assert all[n - 1].ts == all[n].ts;
      forall k | j <= k <= n - 1 ensures rows[k].ts == rows[n - 1].ts {
        assert all[k].ts == all[n].ts;
      }
    }
  }

  lemma TrailingStep(rows: seq<Row>, r: Row, day: Option<string>)
    ensures TrailingSeqs(rows + [r])
         == (if RepeatsInstant(rows, r) then TrailingSeqs(rows) else {}) + {SeqOrZero(r)}
    ensures Holds(RepeatedTsSeq, rows + [r], |rows|, day) <==>
      RepeatsInstant(rows, r) && SeqOrZero(r) in TrailingSeqs(rows)
  {
    var all, n := rows + [r], |rows|;
    assert SameInstant(all, n, n);
    forall j: nat | j < n ensures SameInstant(all, j, n) <==> RepeatsInstant(rows, r) && SameInstant(rows, j, n - 1) {
      SameInstantStep(rows, r, j);
    }
    forall s ensures s in TrailingSeqs(all) <==>
      (RepeatsInstant(rows, r) && s in TrailingSeqs(rows)) || s == SeqOrZero(r)
    {
      if s == SeqOrZero(r) {
        assert SeqOrZero(all[n]) == s;
      }
      if RepeatsInstant(rows, r) && s in TrailingSeqs(rows) {
        var j :| 0 <= j < n && SameInstant(rows, j, n - 1) && SeqOrZero(rows[j]) == s;
        assert SameInstant(all, j, n) && SeqOrZero(all[j]) == s;
      }
    }
    if RepeatsInstant(rows, r) && SeqOrZero(r) in TrailingSeqs(rows) {
      var j :| 0 <= j < n && SameInstant(rows, j, n - 1) && SeqOrZero(rows[j]) == SeqOrZero(r);
      assert SameInstant(all, j, n) && SeqOrZero(all[j]) == SeqOrZero(all[n]);
    }
  }

  function Bit(b: bool): nat { if b then 1 else 0 }

  // ---------------------------------------------------------------- one more row

  type Tally = Fact -> nat

  /** `c` holds the count of every fact over the stream. */
  ghost predicate IsTally(c: Tally, rows: seq<Row>, day: Option<string>) {
    forall f {:trigger Count(f, rows, day)} :: c(f) == Count(f, rows, day)
  }

  ghost function TallyOf(rows: seq<Row>, day: Option<string>): Tally { f => Count(f, rows, day) }

  ghost function Last(rows: seq<Row>): Option<Row> { if rows == [] then None else Some(rows[|rows| - 1]) }

  ghost predicate Grows(c: Tally, c': Tally, f: Fact, more: bool) { c'(f) == c(f) + Bit(more) }

  /** A fact of single or neighbouring rows grows by what the new row and the one before it say. */
  lemma FactGrows(f: Fact, rows: seq<Row>, r: Row, day: Option<string>, c: Tally, c': Tally)
    requires IsTally(c, rows, day) && IsTally(c', rows + [r], day)
    requires f != RepeatedId && f != RepeatedTsSeq
    ensures Grows(c, c', f, RowFact(f, r, day) || (Last(rows).Some? && StepFact(f, Last(rows).value, r)))
  {
    var all := rows + [r];
    assert all[|rows|] == r && (rows != [] ==> all[|rows| - 1] == rows[|rows| - 1]);
    CountAppend(f, rows, r, day);
  }

  lemma IdGrows(rows: seq<Row>, r: Row, day: Option<string>, c: Tally, c': Tally)
    requires IsTally(c, rows, day) && IsTally(c', rows + [r], day)
    ensures Grows(c, c', RepeatedId, r.ingestId != "" && r.ingestId in Ids(rows))
  {
    var all := rows + [r];
    assert all[..|rows|] == rows && all[|rows|] == r;
    CountAppend(RepeatedId, rows, r, day);
    RepeatedMeansSeen(all, |rows|, day);
  }

  lemma TsSeqGrows(rows: seq<Row>, r: Row, day: Option<string>, c: Tally, c': Tally)
    requires IsTally(c, rows, day) && IsTally(c', rows + [r], day)
    ensures Grows(c, c', RepeatedTsSeq, RepeatsInstant(rows, r) && SeqOrZero(r) in TrailingSeqs(rows))
  {
    CountAppend(RepeatedTsSeq, rows, r, day);
    TrailingStep(rows, r, day);
  }

  ghost predicate IdentityGrows(c: Tally, c': Tally, r: Row, day: Option<string>, seen: set<string>) {
    && Grows(c, c', MissingReceived, r.receivedAt.None?)
    && Grows(c, c', MissingId, r.ingestId == "")
    && Grows(c, c', MissingSeq, r.ingestSeq.None?)
    && Grows(c, c', NonPositiveSeq, r.ingestSeq.Some? && r.ingestSeq.value <= 0)
    && Grows(c, c', MissingPrice, !Positive(r.lastPrice))
    && Grows(c, c', WrongDay, r.tradingDay == "" || (day.Some? && r.tradingDay != day.value))
    && Grows(c, c', RepeatedId, r.ingestId != "" && r.ingestId in seen)
  }

  ghost predicate SequenceGrows(c: Tally, c': Tally, last: Option<Row>, r: Row) {
    var falls := last.Some? && r.ts > last.value.ts && last.value.ingestSeq.Some? && r.ingestSeq.Some?
                 && r.ingestSeq.value <= last.value.ingestSeq.value;
    && Grows(c, c', SeqNotIncreasing, falls)
    && Grows(c, c', SeqRegression, falls && r.ingestSeq.value < last.value.ingestSeq.value)
    && Grows(c, c', SeqReset, falls && r.ingestSeq.value < last.value.ingestSeq.value && r.ingestSeq.value <= 1)
    && Grows(c, c', SeqRepeat, falls && r.ingestSeq.value == last.value.ingestSeq.value)
  }

  ghost predicate CadenceGrows(c: Tally, c': Tally, last: Option<Row>, r: Row, trailing: set<int>) {
    var gap := if last.None? then 0 else r.ts - last.value.ts;
    var repeats := last.Some? && last.value.ts == r.ts;
    && Grows(c, c', RepeatedTs, repeats)
    && Grows(c, c', RepeatedTsSeq, repeats && SeqOrZero(r) in trailing)
    && Grows(c, c', CadenceGap, CADENCE_GAP < gap <= CONTINUOUS_GAP)
    && Grows(c, c', SessionBreak, gap > CONTINUOUS_GAP)
  }

  ghost predicate LatencyGrows(c: Tally, c': Tally, r: Row) {
    && Grows(c, c', Stale, r.receivedAt.Some? && r.receivedAt.value - r.ts > TRANSPORT_STALE)
    && Grows(c, c', Skewed, r.receivedAt.Some? && r.receivedAt.value - r.ts < -CLOCK_SKEW)
  }

  ghost predicate DepthGrows(c: Tally, c': Tally, r: Row) {
    && Grows(c, c', L1Complete, IsL1Complete(r))
    && Grows(c, c', L5Complete, IsL5Complete(r))
    && Grows(c, c', Crossed, IsCrossed(r))
    && Grows(c, c', Locked, IsLocked(r))
    && Grows(c, c', Inverted(Bid), IsInverted(r, Bid))
    && Grows(c, c', Inverted(Ask), IsInverted(r, Ask))
  }

  ghost predicate LevelGrows(c: Tally, c': Tally, r: Row, side: Side, k: nat)
    requires k < LEVELS
  {
    && Grows(c, c', LevelPrice(side, k), Positive(BookOf(r, side)[k].price))
    && Grows(c, c', LevelVolume(side, k), Positive(BookOf(r, side)[k].volume))
    && Grows(c, c', LevelPair(side, k), Positive(BookOf(r, side)[k].price) && Positive(BookOf(r, side)[k].volume))
  }

  ghost predicate LevelsGrow(c: Tally, c': Tally, r: Row) {
    forall side: Side, k: nat :: k < LEVELS ==> LevelGrows(c, c', r, side, k)
  }

  ghost predicate VolumeGrows(c: Tally, c': Tally, last: Option<Row>, r: Row) {
    var d := if last.None? then None else VolumeDelta(last.value, r);
    && Grows(c, c', VolumeDecrease, d.Some? && d.value < 0.0)
    && Grows(c, c', VolumeIncrease, d.Some? && d.value > 0.0)
    && Grows(c, c', VolumeMatch, d.Some? && d.value > 0.0 && r.lastVolume.Some? && IsClose(r.lastVolume.value, d.value))
    && Grows(c, c', ChangeWithoutLast, d.Some? && d.value > 0.0 && !Positive(r.lastVolume))
    && Grows(c, c', LastWithoutChange, d.Some? && d.value == 0.0 && Positive(r.lastVolume))
  }

  lemma IdentityStep(rows: seq<Row>, r: Row, day: Option<string>, c: Tally, c': Tally)
    requires IsTally(c, rows, day) && IsTally(c', rows + [r], day)
    ensures IdentityGrows(c, c', r, day, Ids(rows))
  {
    FactGrows(MissingReceived, rows, r, day, c, c');
    FactGrows(MissingId, rows, r, day, c, c');
    FactGrows(MissingSeq, rows, r, day, c, c');
    FactGrows(NonPositiveSeq, rows, r, day, c, c');
    FactGrows(MissingPrice, rows, r, day, c, c');
    FactGrows(WrongDay, rows, r, day, c, c');
    IdGrows(rows, r, day, c, c');
  }

  lemma SequenceStep(rows: seq<Row>, r: Row, day: Option<string>, c: Tally, c': Tally)
    requires IsTally(c, rows, day) && IsTally(c', rows + [r], day)
    ensures SequenceGrows(c, c', Last(rows), r)
  {
    FactGrows(SeqNotIncreasing, rows, r, day, c, c');
    FactGrows(SeqRegression, rows, r, day, c, c');
    FactGrows(SeqReset, rows, r, day, c, c');
    FactGrows(SeqRepeat, rows, r, day, c, c');
  }

  lemma CadenceStep(rows: seq<Row>, r: Row, day: Option<string>, c: Tally, c': Tally)
    requires IsTally(c, rows, day) && IsTally(c', rows + [r], day)
    ensures CadenceGrows(c, c', Last(rows), r, TrailingSeqs(rows))
  {
    FactGrows(RepeatedTs, rows, r, day, c, c');
    FactGrows(CadenceGap, rows, r, day, c, c');
    FactGrows(SessionBreak, rows, r, day, c, c');
    TsSeqGrows(rows, r, day, c, c');
  }

  lemma LatencyStep(rows: seq<Row>, r: Row, day: Option<string>, c: Tally, c': Tally)
    requires IsTally(c, rows, day) && IsTally(c', rows + [r], day)
    ensures LatencyGrows(c, c', r)
  {
    FactGrows(Stale, rows, r, day, c, c');
    FactGrows(Skewed, rows, r, day, c, c');
  }

  lemma CompletenessGrows(rows: seq<Row>, r: Row, day: Option<string>, c: Tally, c': Tally)
    requires IsTally(c, rows, day) && IsTally(c', rows + [r], day)
    ensures Grows(c, c', L1Complete, IsL1Complete(r)) && Grows(c, c', L5Complete, IsL5Complete(r))
  {
    FactGrows(L1Complete, rows, r, day, c, c');
    FactGrows(L5Complete, rows, r, day, c, c');
  }

  lemma CrossingGrows(rows: seq<Row>, r: Row, day: Option<string>, c: Tally, c': Tally)
    requires IsTally(c, rows, day) && IsTally(c', rows + [r], day)
    ensures Grows(c, c', Crossed, IsCrossed(r)) && Grows(c, c', Locked, IsLocked(r))
  {
    FactGrows(Crossed, rows, r, day, c, c');
    FactGrows(Locked, rows, r, day, c, c');
  }

  lemma InversionGrows(rows: seq<Row>, r: Row, day: Option<string>, c: Tally, c': Tally)
    requires IsTally(c, rows, day) && IsTally(c', rows + [r], day)
    ensures Grows(c, c', Inverted(Bid), IsInverted(r, Bid)) && Grows(c, c', Inverted(Ask), IsInverted(r, Ask))
  {
    FactGrows(Inverted(Bid), rows, r, day, c, c');
    FactGrows(Inverted(Ask), rows, r, day, c, c');
  }

  lemma DepthStep(rows: seq<Row>, r: Row, day: Option<string>, c: Tally, c': Tally)
    requires IsTally(c, rows, day) && IsTally(c', rows + [r], day)
    ensures DepthGrows(c, c', r)
  {
    CompletenessGrows(rows, r, day, c, c');
    CrossingGrows(rows, r, day, c, c');
    InversionGrows(rows, r, day, c, c');
  }

  lemma LevelsStep(rows: seq<Row>, r: Row, day: Option<string>, c: Tally, c': Tally)
    requires IsTally(c, rows, day) && IsTally(c', rows + [r], day)
    ensures LevelsGrow(c, c', r)
  {
    forall side: Side, k: nat | k < LEVELS ensures LevelGrows(c, c', r, side, k) {
      FactGrows(LevelPrice(side, k), rows, r, day, c, c');
      FactGrows(LevelVolume(side, k), rows, r, day, c, c');
      FactGrows(LevelPair(side, k), rows, r, day, c, c');
    }
  }

  lemma VolumeFactGrows(f: Fact, rows: seq<Row>, r: Row, day: Option<string>, c: Tally, c': Tally)
    requires IsTally(c, rows, day) && IsTally(c', rows + [r], day)
    requires f in {VolumeDecrease, VolumeIncrease, VolumeMatch, ChangeWithoutLast, LastWithoutChange}
    ensures Grows(c, c', f, Last(rows).Some? && VolumeFact(f, Last(rows).value, r))
  {
    FactGrows(f, rows, r, day, c, c');
  }

  lemma VolumeStep(rows: seq<Row>, r: Row, day: Option<string>, c: Tally, c': Tally)
    requires IsTally(c, rows, day) && IsTally(c', rows + [r], day)
    ensures VolumeGrows(c, c', Last(rows), r)
  {
    VolumeFactGrows(VolumeDecrease, rows, r, day, c, c');
    VolumeFactGrows(VolumeIncrease, rows, r, day, c, c');
    VolumeFactGrows(VolumeMatch, rows, r, day, c, c');
    VolumeFactGrows(ChangeWithoutLast, rows, r, day, c, c');
    VolumeFactGrows(LastWithoutChange, rows, r, day, c, c');
  }

  lemma TallyExists(rows: seq<Row>, day: Option<string>) returns (c: Tally)
    ensures IsTally(c, rows, day)
  {
    c := TallyOf(rows, day);
  }

  lemma ListsStep(rows: seq<Row>, r: Row)
    ensures IntervalsOf(rows + [r]) == IntervalsOf(rows)
      + (if Last(rows).Some? && r.ts > Last(rows).value.ts then [r.ts - Last(rows).value.ts] else [])
    ensures LatenciesOf(rows + [r]) == LatenciesOf(rows)
      + (if r.receivedAt.Some? then [r.receivedAt.value - r.ts] else [])
  {
    var all := rows + [r];
    assert all[..|rows|] == rows && all[|rows|] == r && (rows != [] ==> all[|rows| - 1] == rows[|rows| - 1]);
  }

  // ---------------------------------------------------------------- the accumulator

  // The counters in the groups the program reports them in.

  datatype Identity = Identity(
    missingReceived: nat, missingId: nat, missingSeq: nat, wrongDay: nat, missingPrice: nat,
    duplicateIds: nat, nonPositiveSeq: nat, seenIds: set<string>)

  datatype Sequence = Sequence(notIncreasing: nat, regression: nat, repeated: nat, reset: nat)

  datatype Cadence = Cadence(
    duplicateTs: nat, duplicateTsSeq: nat, cadenceGaps: nat, sessionBreaks: nat, intervals: seq<Time>)

  /** What is remembered of the latest row and instant. */
  datatype Memory = Memory(lastTs: Option<Time>, lastSeq: Option<int>, lastTsSeqs: set<int>)

  datatype Latency = Latency(stale: nat, skewed: nat, latencies: seq<Time>)

  datatype Depth = Depth(l1: nat, l5: nat, crossed: nat, locked: nat, bidInverted: nat, askInverted: nat)

  datatype Levels = Levels(prices: seq<nat>, volumes: seq<nat>, pairs: seq<nat>)

  datatype Volume = Volume(
    falls: nat, rises: nat, matches: nat, changeWithoutLast: nat, lastWithoutChange: nat,
    lastDay: Option<string>, lastVolume: Option<real>)

  ghost predicate IdentityMatches(g: Identity, c: Tally, seen: set<string>) {
    && g.missingReceived == c(MissingReceived)
    && g.missingId == c(MissingId)
    && g.missingSeq == c(MissingSeq)
    && g.wrongDay == c(WrongDay)
    && g.missingPrice == c(MissingPrice)
    && g.duplicateIds == c(RepeatedId)
    && g.nonPositiveSeq == c(NonPositiveSeq)
    && g.seenIds == seen
  }

  ghost predicate SequenceMatches(g: Sequence, c: Tally) {
    && g.notIncreasing == c(SeqNotIncreasing)
    && g.regression == c(SeqRegression)
    && g.repeated == c(SeqRepeat)
    && g.reset == c(SeqReset)
  }

  ghost predicate CadenceMatches(g: Cadence, c: Tally, gaps: seq<Time>) {
    && g.duplicateTs == c(RepeatedTs)
    && g.duplicateTsSeq == c(RepeatedTsSeq)
    && g.cadenceGaps == c(CadenceGap)
    && g.sessionBreaks == c(SessionBreak)
    && g.intervals == gaps
  }

  ghost predicate Remembers(m: Memory, last: Option<Row>, trailing: set<int>) {
    && m.lastTs == (if last.None? then None else Some(last.value.ts))
    && m.lastSeq == (if last.None? then None else last.value.ingestSeq)
    && m.lastTsSeqs == trailing
  }

  ghost predicate LatencyMatches(g: Latency, c: Tally, all: seq<Time>) {
    g.stale == c(Stale) && g.skewed == c(Skewed) && g.latencies == all
  }

  ghost predicate DepthMatches(g: Depth, c: Tally) {
    && g.l1 == c(L1Complete)
    && g.l5 == c(L5Complete)
    && g.crossed == c(Crossed)
    && g.locked == c(Locked)
    && g.bidInverted == c(Inverted(Bid))
    && g.askInverted == c(Inverted(Ask))
  }

  ghost predicate LevelsMatch(g: Levels, side: Side, c: Tally) {
    && |g.prices| == |g.volumes| == |g.pairs| == LEVELS
    && (forall k: nat :: k < LEVELS ==> g.prices[k] == c(LevelPrice(side, k)))
    && (forall k: nat :: k < LEVELS ==> g.volumes[k] == c(LevelVolume(side, k)))
    && (forall k: nat :: k < LEVELS ==> g.pairs[k] == c(LevelPair(side, k)))
  }

  ghost predicate VolumeMatches(g: Volume, c: Tally, last: Option<Row>) {
    && g.falls == c(VolumeDecrease)
    && g.rises == c(VolumeIncrease)
    && g.matches == c(VolumeMatch)
    && g.changeWithoutLast == c(ChangeWithoutLast)
    && g.lastWithoutChange == c(LastWithoutChange)
    && g.lastDay == (if last.None? then None else Some(last.value.tradingDay))
    && g.lastVolume == (if last.None? then None else last.value.volume)
  }

  method AddIdentity(g0: Identity, ghost rows: seq<Row>, ghost c: Tally, ghost c': Tally, r: Row, day: Option<string>) returns (g: Identity)
    requires IsTally(c, rows, day) && IsTally(c', rows + [r], day)
    requires IdentityMatches(g0, c, Ids(rows))
    ensures IdentityMatches(g, c', Ids(rows + [r]))
  {
    IdentityStep(rows, r, day, c, c');
    IdsStep(rows, r);
    g := g0;
    if r.receivedAt.None? {
      g := g.(missingReceived := g.missingReceived + 1);
    }
    if r.ingestId != "" {
      if r.ingestId in g.seenIds {
        g := g.(duplicateIds := g.duplicateIds + 1);
        assert g0.seenIds + {r.ingestId} == g0.seenIds;
      } else {
        g := g.(seenIds := g.seenIds + {r.ingestId});
      }
    } else {
      g := g.(missingId := g.missingId + 1);
    }
    if r.ingestSeq.None? {
      g := g.(missingSeq := g.missingSeq + 1);
    } else if r.ingestSeq.value <= 0 {
      g := g.(nonPositiveSeq := g.nonPositiveSeq + 1);
    }
    if r.tradingDay == "" || (day.Some? && r.tradingDay != day.value) {
      g := g.(wrongDay := g.wrongDay + 1);
    }
    if r.lastPrice.None? || r.lastPrice.value <= 0.0 {
      g := g.(missingPrice := g.missingPrice + 1);
    }
  }

  method AddSequence(g0: Sequence, m: Memory, ghost rows: seq<Row>, ghost c: Tally, ghost c': Tally, r: Row, ghost day: Option<string>)
    returns (g: Sequence)
    requires IsTally(c, rows, day) && IsTally(c', rows + [r], day)
    requires SequenceMatches(g0, c) && Remembers(m, Last(rows), TrailingSeqs(rows))
    ensures SequenceMatches(g, c')
  {
    SequenceStep(rows, r, day, c, c');
    g := g0;
    if r.ingestSeq.Some? && m.lastSeq.Some? && m.lastTs.Some? && r.ts > m.lastTs.value
       && r.ingestSeq.value <= m.lastSeq.value {
      g := g.(notIncreasing := g.notIncreasing + 1);
      if r.ingestSeq.value < m.lastSeq.value {
        g := g.(regression := g.regression + 1);
        if r.ingestSeq.value <= 1 {
          g := g.(reset := g.reset + 1);
        }
      } else {
        g := g.(repeated := g.repeated + 1);
      }
    }
  }

  method AddCadence(g0: Cadence, m0: Memory, ghost rows: seq<Row>, ghost c: Tally, ghost c': Tally, r: Row, ghost day: Option<string>)
    returns (g: Cadence, m: Memory)
    requires IsTally(c, rows, day) && IsTally(c', rows + [r], day)
    requires CadenceMatches(g0, c, IntervalsOf(rows)) && Remembers(m0, Last(rows), TrailingSeqs(rows))
    ensures CadenceMatches(g, c', IntervalsOf(rows + [r]))
    ensures Remembers(m, Last(rows + [r]), TrailingSeqs(rows + [r]))
  {
    CadenceStep(rows, r, day, c, c');
    ListsStep(rows, r);
    TrailingStep(rows, r, day);
    g, m := g0, m0;
    if m.lastTs == Some(r.ts) {
      g := g.(duplicateTs := g.duplicateTs + 1);
      if SeqOrZero(r) in m.lastTsSeqs {
        g := g.(duplicateTsSeq := g.duplicateTsSeq + 1);
      }
      m := m.(lastTsSeqs := m.lastTsSeqs + {SeqOrZero(r)});
    } else {
      if m.lastTs.Some? {
        var interval := r.ts - m.lastTs.value;
        if interval >= 0 {
          g := g.(intervals := g.intervals + [interval]);
          if interval > CADENCE_GAP && interval <= CONTINUOUS_GAP {
            g := g.(cadenceGaps := g.cadenceGaps + 1);
          } else if interval > CONTINUOUS_GAP {
            g := g.(sessionBreaks := g.sessionBreaks + 1);
          }
        }
      }
      m := m.(lastTs := Some(r.ts), lastTsSeqs := {SeqOrZero(r)});
    }
    m := m.(lastSeq := r.ingestSeq);
  }

  method AddLatency(g0: Latency, ghost rows: seq<Row>, ghost c: Tally, ghost c': Tally, r: Row, ghost day: Option<string>) returns (g: Latency)
    requires IsTally(c, rows, day) && IsTally(c', rows + [r], day)
    requires LatencyMatches(g0, c, LatenciesOf(rows))
    ensures LatencyMatches(g, c', LatenciesOf(rows + [r]))
  {
    LatencyStep(rows, r, day, c, c');
    ListsStep(rows, r);
    g := g0;
    if r.receivedAt.Some? {
      var latency := r.receivedAt.value - r.ts;
      g := g.(latencies := g.latencies + [latency]);
      if latency > TRANSPORT_STALE {
        g := g.(stale := g.stale + 1);
      }
      if latency < -CLOCK_SKEW {
        g := g.(skewed := g.skewed + 1);
      }
    }
  }

  method AddDepth(g0: Depth, ghost rows: seq<Row>, ghost c: Tally, ghost c': Tally, r: Row, ghost day: Option<string>) returns (g: Depth)
    requires IsTally(c, rows, day) && IsTally(c', rows + [r], day)
    requires DepthMatches(g0, c)
    ensures DepthMatches(g, c')
  {
    DepthStep(rows, r, day, c, c');
    g := g0.(l1 := g0.l1 + Bit(IsL1Complete(r)), l5 := g0.l5 + Bit(IsL5Complete(r)));
    var bid, ask := r.bids[0].price, r.asks[0].price;
    if bid.Some? && ask.Some? && bid.value > 0.0 && ask.value > 0.0 {
      g := g.(crossed := g.crossed + Bit(bid.value > ask.value), locked := g.locked + Bit(bid.value == ask.value));
    }
    g := g.(bidInverted := g.bidInverted + Bit(IsInverted(r, Bid)), askInverted := g.askInverted + Bit(IsInverted(r, Ask)));
  }

  /** The per-level counters of one side, level by level. */
  method AddLevels(g0: Levels, side: Side, ghost rows: seq<Row>, ghost c: Tally, ghost c': Tally, r: Row, ghost day: Option<string>) returns (g: Levels)
    requires IsTally(c, rows, day) && IsTally(c', rows + [r], day)
    requires LevelsMatch(g0, side, c)
    ensures LevelsMatch(g, side, c')
  {
    LevelsStep(rows, r, day, c, c');
    var prices, volumes, pairs := g0.prices, g0.volumes, g0.pairs;
    for level := 0 to LEVELS
      invariant |prices| == |volumes| == |pairs| == LEVELS
      invariant forall k: nat :: k < level ==> prices[k] == c'(LevelPrice(side, k))
      invariant forall k: nat :: k < level ==> volumes[k] == c'(LevelVolume(side, k))
      invariant forall k: nat :: k < level ==> pairs[k] == c'(LevelPair(side, k))
      invariant forall k: nat :: level <= k < LEVELS ==>
        prices[k] == g0.prices[k] && volumes[k] == g0.volumes[k] && pairs[k] == g0.pairs[k]
    {
      assert LevelGrows(c, c', r, side, level);
      var quote := BookOf(r, side)[level];
      prices := prices[level := prices[level] + Bit(Positive(quote.price))];
      volumes := volumes[level := volumes[level] + Bit(Positive(quote.volume))];
      pairs := pairs[level := pairs[level] + Bit(Positive(quote.price) && Positive(quote.volume))];
    }
    g := Levels(prices, volumes, pairs);
  }

  method AddVolume(g0: Volume, ghost rows: seq<Row>, ghost c: Tally, ghost c': Tally, r: Row, ghost day: Option<string>) returns (g: Volume)
    requires IsTally(c, rows, day) && IsTally(c', rows + [r], day)
    requires VolumeMatches(g0, c, Last(rows))
    ensures VolumeMatches(g, c', Last(rows + [r]))
  {
    VolumeStep(rows, r, day, c, c');
    g := g0;
    if Some(r.tradingDay) != g.lastDay {
      return g.(lastDay := Some(r.tradingDay), lastVolume := r.volume);
    }
    if r.volume.None? || g.lastVolume.None? {
      return g.(lastVolume := r.volume);
    }
    var delta := r.volume.value - g.lastVolume.value;
    if delta < 0.0 {
      g := g.(falls := g.falls + 1);
    } else if delta > 0.0 {
      g := g.(rises := g.rises + 1);
      if r.lastVolume.Some? && IsClose(r.lastVolume.value, delta) {
        g := g.(matches := g.matches + 1);
      }
      if r.lastVolume.None? || r.lastVolume.value <= 0.0 {
        g := g.(changeWithoutLast := g.changeWithoutLast + 1);
      }
    } else if r.lastVolume.Some? && r.lastVolume.value > 0.0 {
      g := g.(lastWithoutChange := g.lastWithoutChange + 1);
    }
    g := g.(lastVolume := r.volume);
  }

  /** Everything the accumulator keeps about the rows' identity, order and timing. */
  datatype Flow = Flow(identity: Identity, sequence: Sequence, cadence: Cadence, memory: Memory, latency: Latency)

  /** Everything it keeps about quotes and volume. */
  datatype Market = Market(depth: Depth, bidLevels: Levels, askLevels: Levels, volume: Volume)

  ghost predicate FlowMatches(g: Flow, c: Tally, rows: seq<Row>) {
    && IdentityMatches(g.identity, c, Ids(rows))
    && SequenceMatches(g.sequence, c)
    && CadenceMatches(g.cadence, c, IntervalsOf(rows))
    && Remembers(g.memory, Last(rows), TrailingSeqs(rows))
    && LatencyMatches(g.latency, c, LatenciesOf(rows))
  }

  ghost predicate MarketMatches(g: Market, c: Tally, rows: seq<Row>) {
    && DepthMatches(g.depth, c)
    && LevelsMatch(g.bidLevels, Bid, c)
    && LevelsMatch(g.askLevels, Ask, c)
    && VolumeMatches(g.volume, c, Last(rows))
  }

  method AddFlow(g0: Flow, ghost rows: seq<Row>, ghost c: Tally, ghost c': Tally, r: Row, day: Option<string>) returns (g: Flow)
    requires IsTally(c, rows, day) && IsTally(c', rows + [r], day) && FlowMatches(g0, c, rows)
    ensures FlowMatches(g, c', rows + [r])
  {
    var identity := AddIdentity(g0.identity, rows, c, c', r, day);
    var sequence := AddSequence(g0.sequence, g0.memory, rows, c, c', r, day);
    var cadence, memory := AddCadence(g0.cadence, g0.memory, rows, c, c', r, day);
    var latency := AddLatency(g0.latency, rows, c, c', r, day);
    g := Flow(identity, sequence, cadence, memory, latency);
  }

  method AddMarket(g0: Market, ghost rows: seq<Row>, ghost c: Tally, ghost c': Tally, r: Row, ghost day: Option<string>)
    returns (g: Market)
    requires IsTally(c, rows, day) && IsTally(c', rows + [r], day) && MarketMatches(g0, c, rows)
    ensures MarketMatches(g, c', rows + [r])
  {
    var bidLevels := AddLevels(g0.bidLevels, Bid, rows, c, c', r, day);
    var askLevels := AddLevels(g0.askLevels, Ask, rows, c, c', r, day);
    var depth := AddDepth(g0.depth, rows, c, c', r, day);
    var volume := AddVolume(g0.volume, rows, c, c', r, day);
    g := Market(depth, bidLevels, askLevels, volume);
  }

  class MetricsAccumulator {
    const day: Option<string>
    ghost var rows: seq<Row>
    ghost var tally: Tally

    var rowCount: nat
    var flow: Flow
    var market: Market

    /** Every counter and list equals its definition over all rows added so far. */
    ghost predicate Valid()
      reads this
    {
      && rowCount == |rows|
      && IsTally(tally, rows, day)
      && FlowMatches(flow, tally, rows)
      && MarketMatches(market, tally, rows)
    }

    constructor (day: Option<string>)
      ensures Valid() && rows == [] && this.day == day
    {
      this.day := day;
      rows := [];
      tally := f => 0;
      rowCount := 0;
      flow := Flow(Identity(0, 0, 0, 0, 0, 0, 0, {}), Sequence(0, 0, 0, 0), Cadence(0, 0, 0, 0, []),
                   Memory(None, None, {}), Latency(0, 0, []));
      var levels := Levels([0, 0, 0, 0, 0], [0, 0, 0, 0, 0], [0, 0, 0, 0, 0]);
      market := Market(Depth(0, 0, 0, 0, 0, 0), levels, levels, Volume(0, 0, 0, 0, 0, None, None));
    }

    /** Adds one row to every counter. */
    method Add(r: Row)
      requires Valid()
      modifies this
      ensures Valid() && rows == old(rows) + [r]
    {
      ghost var c := tally;
      ghost var c' := TallyExists(rows + [r], day);
      rowCount := rowCount + 1;
      flow := AddFlow(flow, rows, c, c', r, day);
      market := AddMarket(market, rows, c, c', r, day);
      rows, tally := rows + [r], c';
    }
  }
}
