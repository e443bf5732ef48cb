/** Market ticks and what an audit counts about them, stated row by row over the whole stream. */
module TickRows {
  import opened Optional
  import opened Clock
  import opened RealMath

  const TRANSPORT_STALE: Time := 5 * SECOND
  const CLOCK_SKEW: Time := 1 * SECOND
  const CADENCE_GAP: Time := 5 * SECOND
  const CONTINUOUS_GAP: Time := 300 * SECOND
  const LEVELS: nat := 5

  datatype Quote = Quote(price: Option<real>, volume: Option<real>)

  type Book = s: seq<Quote> | |s| == LEVELS witness
    [Quote(None, None), Quote(None, None), Quote(None, None), Quote(None, None), Quote(None, None)]

  /** One row of market_ticks; an absent id or trading day is the empty string. */
  datatype Row = Row(
    ts: Time, receivedAt: Option<Time>, ingestId: string, ingestSeq: Option<int>, tradingDay: string,
    lastPrice: Option<real>, lastVolume: Option<real>, volume: Option<real>, bids: Book, asks: Book)

  datatype Side = Bid | Ask

  /** What can be true of a row in its stream. */
  datatype Fact =
    | MissingReceived | MissingId | MissingSeq | WrongDay | MissingPrice | RepeatedId | NonPositiveSeq
    | SeqNotIncreasing | SeqRegression | SeqRepeat | SeqReset
    | RepeatedTs | RepeatedTsSeq | Interval | CadenceGap | SessionBreak
    | Stale | Skewed
    | L1Complete | L5Complete | Crossed | Locked | Inverted(side: Side)
    | LevelPrice(side: Side, level: nat) | LevelVolume(side: Side, level: nat) | LevelPair(side: Side, level: nat)
    | VolumeDecrease | VolumeIncrease | VolumeMatch | ChangeWithoutLast | LastWithoutChange

  predicate Positive(x: Option<real>) { x.Some? && x.value > 0.0 }

  function SeqOrZero(r: Row): int { if r.ingestSeq.Some? then r.ingestSeq.value else 0 }

  function BookOf(r: Row, side: Side): Book { if side == Bid then r.bids else r.asks }

  predicate PairAt(r: Row, side: Side, level: nat)
    requires level < LEVELS
  {
    Positive(BookOf(r, side)[level].price) && Positive(BookOf(r, side)[level].volume)
  }

  predicate IsL1Complete(r: Row) { PairAt(r, Bid, 0) && PairAt(r, Ask, 0) }

  predicate IsL5Complete(r: Row) { forall level :: 0 <= level < LEVELS ==> PairAt(r, Bid, level) && PairAt(r, Ask, level) }

  predicate IsCrossed(r: Row) {
    Positive(r.bids[0].price) && Positive(r.asks[0].price) && r.bids[0].price.value > r.asks[0].price.value
  }

  predicate IsLocked(r: Row) {
    Positive(r.bids[0].price) && Positive(r.asks[0].price) && r.bids[0].price.value == r.asks[0].price.value
  }

  /** Somewhere two neighbouring priced levels are in the wrong order for their side. */
  predicate IsInverted(r: Row, side: Side) {
    var book := BookOf(r, side);
    exists level :: 0 <= level < LEVELS - 1
      && Positive(book[level].price) && Positive(book[level + 1].price)
      && (if side == Bid then book[level].price.value < book[level + 1].price.value
          else book[level].price.value > book[level + 1].price.value)
  }

  function Larger(a: real, b: real): real { if a >= b then a else b }

  const CLOSE := 0.000000001

  /** `math.isclose` with both tolerances at 1e-9. */
  predicate IsClose(a: real, b: real) { Abs(a - b) <= Larger(CLOSE * Larger(Abs(a), Abs(b)), CLOSE) }

  /** The change of cumulative volume between two neighbouring rows of one trading day. */
  function VolumeDelta(before: Row, r: Row): Option<real> {
    if before.tradingDay == r.tradingDay && before.volume.Some? && r.volume.Some?
    then Some(r.volume.value - before.volume.value) else None
  }

  predicate VolumeFact(f: Fact, before: Row, r: Row) {
    var d := VolumeDelta(before, r);
    d.Some? &&
    match f
    case VolumeDecrease => d.value < 0.0
    case VolumeIncrease => d.value > 0.0
    case VolumeMatch => d.value > 0.0 && r.lastVolume.Some? && IsClose(r.lastVolume.value, d.value)
    case ChangeWithoutLast => d.value > 0.0 && !Positive(r.lastVolume)
    case LastWithoutChange => d.value == 0.0 && Positive(r.lastVolume)
    case _ => false
  }

  /** Facts about one row alone. */
  predicate RowFact(f: Fact, r: Row, day: Option<string>) {
    match f
    case MissingReceived => r.receivedAt.None?
    case MissingId => r.ingestId == ""
    case MissingSeq => r.ingestSeq.None?
    case WrongDay => r.tradingDay == "" || (day.Some? && r.tradingDay != day.value)
    case MissingPrice => !Positive(r.lastPrice)
    case NonPositiveSeq => r.ingestSeq.Some? && r.ingestSeq.value <= 0
    case Stale => r.receivedAt.Some? && r.receivedAt.value - r.ts > TRANSPORT_STALE
    case Skewed => r.receivedAt.Some? && r.receivedAt.value - r.ts < -CLOCK_SKEW
    case L1Complete => IsL1Complete(r)
    case L5Complete => IsL5Complete(r)
    case Crossed => IsCrossed(r)
    case Locked => IsLocked(r)
    case Inverted(side) => IsInverted(r, side)
    case LevelPrice(side, level) => level < LEVELS && Positive(BookOf(r, side)[level].price)
    case LevelVolume(side, level) => level < LEVELS && Positive(BookOf(r, side)[level].volume)
    case LevelPair(side, level) => level < LEVELS && PairAt(r, side, level)
    case _ => false
  }

  /** Facts about two neighbouring rows. */
  predicate StepFact(f: Fact, before: Row, r: Row) {
    var later := r.ts > before.ts;
    var both := before.ingestSeq.Some? && r.ingestSeq.Some?;
    match f
    case SeqNotIncreasing => later && both && r.ingestSeq.value <= before.ingestSeq.value
    case SeqRegression => later && both && r.ingestSeq.value < before.ingestSeq.value
    case SeqRepeat => later && both && r.ingestSeq.value == before.ingestSeq.value
    case SeqReset => later && both && r.ingestSeq.value < before.ingestSeq.value && r.ingestSeq.value <= 1
    case RepeatedTs => r.ts == before.ts
    case Interval => later
    case CadenceGap => CADENCE_GAP < r.ts - before.ts <= CONTINUOUS_GAP
    case SessionBreak => r.ts - before.ts > CONTINUOUS_GAP
    case _ => VolumeFact(f, before, r)
  }

  /** Rows `j` to `i` all carry the same exchange time. */
  ghost predicate SameInstant(rows: seq<Row>, j: nat, i: nat) {
    i < |rows| && forall k :: j <= k <= i ==> rows[k].ts == rows[i].ts
  }

  /** Whether `f` is true of row `i`, given everything before it. */
  ghost predicate Holds(f: Fact, rows: seq<Row>, i: nat, day: Option<string>)
    requires i < |rows|
  {
    match f
    case RepeatedId => rows[i].ingestId != "" && exists j :: 0 <= j < i && rows[j].ingestId == rows[i].ingestId
    case RepeatedTsSeq =>
      exists j: nat :: j < i && SameInstant(rows, j, i) && SeqOrZero(rows[j]) == SeqOrZero(rows[i])
    case _ => RowFact(f, rows[i], day) || (i > 0 && StepFact(f, rows[i - 1], rows[i]))
  }

  /** How many rows of the stream `f` is true of. */
  ghost function Count(f: Fact, rows: seq<Row>, day: Option<string>): nat {
    if rows == [] then 0
    else
      var n := |rows| - 1;
      Count(f, rows[..n], day) + if Holds(f, rows, n, day) then 1 else 0
  }

  lemma CountAppend(f: Fact, rows: seq<Row>, r: Row, day: Option<string>)
    ensures Count(f, rows + [r], day) == Count(f, rows, day) + if Holds(f, rows + [r], |rows|, day) then 1 else 0
  {
    assert (rows + [r])[..|rows|] == rows;
  }

  // ---------------------------------------------------------------- conservation

  lemma {:induction false} CountImplies(f: Fact, g: Fact, rows: seq<Row>, day: Option<string>)
    requires forall i :: 0 <= i < |rows| && Holds(f, rows, i, day) ==> Holds(g, rows, i, day)
    ensures Count(f, rows, day) <= Count(g, rows, day) <= |rows|
  {
    if rows != [] {
      var p := rows[..|rows| - 1];
      forall i | 0 <= i < |p| && Holds(f, p, i, day) ensures Holds(g, p, i, day) {
        PrefixHoldsAt(f, p, rows, i, day);
        PrefixHoldsAt(g, p, rows, i, day);
      }
      CountImplies(f, g, p, day);
    }
  }

  /** Whether a fact holds of a row does not depend on what comes after it. */
  lemma PrefixHoldsAt(f: Fact, p: seq<Row>, rows: seq<Row>, i: nat, day: Option<string>)
    requires p <= rows && i < |p|
    ensures Holds(f, p, i, day) <==> Holds(f, rows, i, day)
  {
    if f == RepeatedTsSeq {
      forall j: nat | j < i ensures SameInstant(p, j, i) <==> SameInstant(rows, j, i) {
        assert forall k :: j <= k <= i ==> p[k] == rows[k];
      }
    }
  }

  lemma {:induction false} CountSplits(f: Fact, g: Fact, h: Fact, rows: seq<Row>, day: Option<string>)
    requires forall i :: 0 <= i < |rows| ==>
      (Holds(f, rows, i, day) <==> Holds(g, rows, i, day) || Holds(h, rows, i, day)) &&
      !(Holds(g, rows, i, day) && Holds(h, rows, i, day))
    ensures Count(f, rows, day) == Count(g, rows, day) + Count(h, rows, day)
  {
    if rows != [] {
      var p := rows[..|rows| - 1];
      forall i | 0 <= i < |p|
        ensures (Holds(f, p, i, day) <==> Holds(g, p, i, day) || Holds(h, p, i, day)) &&
                !(Holds(g, p, i, day) && Holds(h, p, i, day))
      {
        PrefixHoldsAt(f, p, rows, i, day);
        PrefixHoldsAt(g, p, rows, i, day);
        PrefixHoldsAt(h, p, rows, i, day);
      }
      CountSplits(f, g, h, p, day);
    }
  }

  /** Every non-increasing sequence number either regresses or repeats; resets are regressions. */
  lemma SequenceConservation(rows: seq<Row>, day: Option<string>)
    ensures Count(SeqNotIncreasing, rows, day) == Count(SeqRegression, rows, day) + Count(SeqRepeat, rows, day)
    ensures Count(SeqReset, rows, day) <= Count(SeqRegression, rows, day)
  {
    CountSplits(SeqNotIncreasing, SeqRegression, SeqRepeat, rows, day);
    CountImplies(SeqReset, SeqRegression, rows, day);
  }

  /** A fully quoted book is quoted at the top. */
  lemma DepthConservation(rows: seq<Row>, day: Option<string>)
    ensures Count(L5Complete, rows, day) <= Count(L1Complete, rows, day) <= |rows|
  {
    forall i | 0 <= i < |rows| && Holds(L5Complete, rows, i, day) ensures Holds(L1Complete, rows, i, day) {
      assert PairAt(rows[i], Bid, 0);
    }
    CountImplies(L5Complete, L1Complete, rows, day);
  }

  // ---------------------------------------------------------------- books and volumes

  /** The priced levels never rise on the bid side and never fall on the ask side. */
  ghost predicate Stepwise(r: Row, side: Side) {
    var book := BookOf(r, side);
    forall i, j :: 0 <= i < j < 5 && Positive(book[i].price) && Positive(book[j].price) ==>
      if side == Bid then book[i].price.value >= book[j].price.value else book[i].price.value <= book[j].price.value
  }

  /** A book in order adds to neither inversion count. */
  lemma OrderedBookNotCounted(rows: seq<Row>, r: Row, day: Option<string>)
    requires Stepwise(r, Bid) && Stepwise(r, Ask)
    ensures Count(Inverted(Bid), rows + [r], day) == Count(Inverted(Bid), rows, day)
    ensures Count(Inverted(Ask), rows + [r], day) == Count(Inverted(Ask), rows, day)
  {
    CountAppend(Inverted(Bid), rows, r, day);
    CountAppend(Inverted(Ask), rows, r, day);
  }

  /** A side with all five levels priced is counted as inverted exactly when it is not in order somewhere. */
  lemma InvertedExactly(rows: seq<Row>, r: Row, day: Option<string>, side: Side)
    requires forall i :: 0 <= i < 5 ==> Positive(BookOf(r, side)[i].price)
    ensures Count(Inverted(side), rows + [r], day) == Count(Inverted(side), rows, day) + if Stepwise(r, side) then 0 else 1
  {
    CountAppend(Inverted(side), rows, r, day);
    if !IsInverted(r, side) {
      NeighboursInOrder(r, side, 0);
      NeighboursInOrder(r, side, 1);
      NeighboursInOrder(r, side, 2);
      NeighboursInOrder(r, side, 3);
    }
  }

  lemma NeighboursInOrder(r: Row, side: Side, level: nat)
    requires level < 4 && !IsInverted(r, side)
    requires Positive(BookOf(r, side)[level].price) && Positive(BookOf(r, side)[level + 1].price)
    ensures var upper, lower := BookOf(r, side)[level].price.value, BookOf(r, side)[level + 1].price.value;
      if side == Bid then upper >= lower else upper <= lower
  {
    var book := BookOf(r, side);
    var better, worse := book[level], book[level + 1];
  }

  /** A full level has a price and a volume; a full book is ten full levels, and a full top is its first two. */
  lemma FullBookIsTenLevels(r: Row, day: Option<string>)
    ensures RowFact(L5Complete, r, day) <==>
      forall level: nat :: level < 5 ==> RowFact(LevelPair(Bid, level), r, day) && RowFact(LevelPair(Ask, level), r, day)
    ensures RowFact(L1Complete, r, day) <==> RowFact(LevelPair(Bid, 0), r, day) && RowFact(LevelPair(Ask, 0), r, day)
    ensures forall side: Side, level: nat :: level < 5 ==>
      (RowFact(LevelPair(side, level), r, day) <==> RowFact(LevelPrice(side, level), r, day) && RowFact(LevelVolume(side, level), r, day))
  {
    hide Positive, BookOf;
    forall side: Side, level: nat | level < 5
      ensures RowFact(LevelPair(side, level), r, day) <==> PairAt(r, side, level)
      ensures PairAt(r, side, level) <==> RowFact(LevelPrice(side, level), r, day) && RowFact(LevelVolume(side, level), r, day)
    {}
  }

  /** Two priced tops are crossed, locked, or apart with the bid below the ask. */
  lemma TopOfBook(r: Row, day: Option<string>, bid: real, ask: real)
    requires r.bids[0].price == Some(bid) && r.asks[0].price == Some(ask) && bid > 0.0 && ask > 0.0
    ensures RowFact(Crossed, r, day) <==> bid > ask
    ensures RowFact(Locked, r, day) <==> bid == ask
  {}

  /** Whole volumes up to half a thousand million are close only when they are equal. */
  lemma WholeVolumesClose(a: int, b: int)
    requires -500_000_000 <= a <= 500_000_000 && -500_000_000 <= b <= 500_000_000
    ensures IsClose(a as real, b as real) <==> a == b
  {
    if a != b {
      assert Abs(a as real - b as real) >= 1.0;
      assert Larger(Abs(a as real), Abs(b as real)) <= 500000000.0;
    }
  }

  /** In whole lots, a rise of the cumulative volume is matched exactly when the row's last volume is that rise. */
  lemma MatchedRise(before: Row, r: Row, from: int, to: int, last: int)
    requires before.tradingDay == r.tradingDay && before.volume == Some(from as real) && r.volume == Some(to as real)
    requires r.lastVolume == Some(last as real) && 0 < to - from <= 500_000_000 && -500_000_000 <= last <= 500_000_000
    ensures StepFact(VolumeIncrease, before, r) && (StepFact(VolumeMatch, before, r) <==> last == to - from)
    ensures StepFact(ChangeWithoutLast, before, r) <==> last <= 0
  {
    WholeVolumesClose(last, to - from);
    assert (to - from) as real == to as real - from as real;
  }

  ghost predicate Ordered(rows: seq<Row>) { forall i, j :: 0 <= i < j < |rows| ==> rows[i].ts <= rows[j].ts }

  lemma IntervalStep(rows: seq<Row>, r: Row, day: Option<string>)
    requires rows != [] && rows[|rows| - 1].ts <= r.ts
    ensures Count(Interval, rows + [r], day) + Count(RepeatedTs, rows + [r], day)
         == Count(Interval, rows, day) + Count(RepeatedTs, rows, day) + 1
  {
    CountAppend(Interval, rows, r, day);
    CountAppend(RepeatedTs, rows, r, day);
    var all := rows + [r];
    assert all[|rows| - 1] == rows[|rows| - 1] && all[|rows|] == r;
  }

  /** In an ordered stream every row after the first either repeats the time before it or opens an interval. */
  lemma {:induction false} IntervalConservation(rows: seq<Row>, day: Option<string>)
    requires Ordered(rows) && rows != []
    ensures Count(Interval, rows, day) + Count(RepeatedTs, rows, day) + 1 == |rows|
  {
    var n := |rows| - 1;
    if n > 0 {
      hide Count;
      assert rows == rows[..n] + [rows[n]];
      IntervalConservation(rows[..n], day);
      IntervalStep(rows[..n], rows[n], day);
    } else {
      assert rows[..0] == [];
    }
  }

  /** The same sequence number, a missing one counting as zero. */
  predicate SameNumber(a: Option<int>, b: Option<int>) {
    || a == b
    || (a == None && b == Some(0)) || (a == Some(0) && b == None)
  }

  /** In an ordered stream a repeated sequence number at one instant is just two rows with equal time and number. */
  lemma RepeatedTsSeqWhenOrdered(rows: seq<Row>, i: nat, day: Option<string>)
    requires Ordered(rows) && i < |rows|
    ensures Holds(RepeatedTsSeq, rows, i, day) <==>
      exists j :: 0 <= j < i && rows[j].ts == rows[i].ts && SameNumber(rows[j].ingestSeq, rows[i].ingestSeq)
  {
    forall j: nat | j < i && rows[j].ts == rows[i].ts ensures SameInstant(rows, j, i) {
      assert forall k :: j <= k <= i ==> rows[j].ts <= rows[k].ts <= rows[i].ts;
    }
  }

  ghost function Ids(rows: seq<Row>): set<string> { set i | 0 <= i < |rows| && rows[i].ingestId != "" :: rows[i].ingestId }

  lemma IdStep(rows: seq<Row>, r: Row, day: Option<string>)
    ensures Count(MissingId, rows + [r], day) + |Ids(rows + [r])| + Count(RepeatedId, rows + [r], day)
         == Count(MissingId, rows, day) + |Ids(rows)| + Count(RepeatedId, rows, day) + 1
  {
    CountAppend(MissingId, rows, r, day);
    CountAppend(RepeatedId, rows, r, day);
    IdsStep(rows, r);
    var all := rows + [r];
    assert all[..|rows|] == rows && all[|rows|] == r;
    RepeatedMeansSeen(all, |rows|, day);
    assert Holds(MissingId, all, |rows|, day) <==> r.ingestId == "";
    if r.ingestId in Ids(rows) {
      assert Ids(rows) + {r.ingestId} == Ids(rows);
    } else {
      assert |Ids(rows) + {r.ingestId}| == |Ids(rows)| + 1;
    }
    IdsNonEmpty(rows);
  }

  lemma IdsNonEmpty(rows: seq<Row>)
    ensures "" !in Ids(rows)
  {}

  /** Every row's id is missing, new, or a repeat. */
  lemma {:induction false} IdConservation(rows: seq<Row>, day: Option<string>)
    ensures |rows| == Count(MissingId, rows, day) + |Ids(rows)| + Count(RepeatedId, rows, day)
  {
    if rows == [] {
      assert Ids(rows) == {};
    } else {
      var n := |rows| - 1;
      IdConservation(rows[..n], day);
      IdStep(rows[..n], rows[n], day);
      assert rows == rows[..n] + [rows[n]];
    }
  }

  /** An id is a repeat exactly when it is present and was seen before. */
  lemma RepeatedMeansSeen(rows: seq<Row>, i: nat, day: Option<string>)
    requires i < |rows|
    ensures Holds(RepeatedId, rows, i, day) <==> rows[i].ingestId != "" && rows[i].ingestId in Ids(rows[..i])
  {
    if rows[i].ingestId != "" && rows[i].ingestId in Ids(rows[..i]) {
      var j :| 0 <= j < i && rows[..i][j].ingestId != "" && rows[..i][j].ingestId == rows[i].ingestId;
      assert rows[j].ingestId == rows[i].ingestId;
    }
    if Holds(RepeatedId, rows, i, day) {
      var j :| 0 <= j < i && rows[j].ingestId == rows[i].ingestId;
      assert rows[..i][j].ingestId == rows[i].ingestId;
    }
  }

  lemma IdsStep(rows: seq<Row>, r: Row)
    ensures Ids(rows + [r]) == if r.ingestId == "" then Ids(rows) else Ids(rows) + {r.ingestId}
  {
    var all := rows + [r];
    forall id ensures id in Ids(all) <==> id in Ids(rows) || (r.ingestId != "" && id == r.ingestId) {
      if id in Ids(rows) {
        var i :| 0 <= i < |rows| && rows[i].ingestId != "" && rows[i].ingestId == id;
        assert all[i].ingestId == id;
      }
      if r.ingestId != "" && id == r.ingestId {
        assert all[|rows|].ingestId == id;
      }
    }
  }
}
