/** Tick coverage of a time window: gaps, boundaries, and how many ticks density alone already forces. */
module Coverage {
  import opened Optional
  import opened Clock
  import opened Sorting

  function Leq(a: Time, b: Time): bool { a <= b }

  lemma TimeOrder()
    ensures TotalPreorder(Leq)
  {}

  /** The largest gap between neighbours. */
  function MaxGap(ordered: seq<Time>): Option<Time> {
    if |ordered| < 2 then None
    else
      var n := |ordered| - 1;
      var gap := ordered[n] - ordered[n - 1];
      var rest := MaxGap(ordered[..n]);
      if rest.Some? && rest.value > gap then rest else Some(gap)
  }

  datatype Report = Report(startGap: Option<Time>, endGap: Option<Time>, observed: Option<Time>, maxGap: Option<Time>, complete: bool)

  function LargerOf(a: Option<Time>, b: Option<Time>): Option<Time> {
    if a.None? then b else if b.None? then a else if a.value >= b.value then a else b
  }

  function CoverageResult(times: seq<Time>, start: Time, end: Time, limit: Time): Report {
    var ordered := SortBy(times, Leq);
    var observed := MaxGap(ordered);
    var startGap := if ordered == [] then None else Some(ordered[0] - start);
    var endGap := if ordered == [] then None else Some(end - ordered[|ordered| - 1]);
    Report(startGap, endGap, observed, LargerOf(LargerOf(observed, startGap), endGap),
           ordered != [] && 0 <= ordered[0] - start <= limit && 0 <= end - ordered[|ordered| - 1] <= limit)
  }

  /** What the audit demands of a window's coverage. */
  predicate Passes(times: seq<Time>, start: Time, end: Time, limit: Time) {
    var r := CoverageResult(times, start, end, limit);
    r.complete && r.maxGap.Some? && r.maxGap.value <= limit
  }

  // ---------------------------------------------------------------- density

  ghost predicate TickInside(times: seq<Time>, a: Time, b: Time) { exists t :: t in times && a < t < b }

  /** Every stretch of the window longer than `limit` has a tick strictly inside. */
  ghost predicate Dense(times: seq<Time>, start: Time, end: Time, limit: Time) {
    forall a, b {:trigger TickInside(times, a, b)} :: start <= a && b <= end && b - a > limit ==> TickInside(times, a, b)
  }

  ghost predicate Ascending(s: seq<Time>) { forall i, j :: 0 <= i < j < |s| ==> s[i] <= s[j] }

  lemma SortedTimes(times: seq<Time>)
    ensures var s := SortBy(times, Leq);
      Ascending(s) && |s| == |times| && forall t :: t in s <==> t in times
  {
    TimeOrder();
    SortSorted(times, Leq);
    SortPermutes(times, Leq);
  }

  lemma {:induction false} MaxGapBounds(s: seq<Time>, limit: Time)
    requires |s| >= 2
    ensures MaxGap(s).Some?
    ensures MaxGap(s).value <= limit <==> forall i :: 0 < i < |s| ==> s[i] - s[i - 1] <= limit
  {
    var n := |s| - 1;
    if n >= 2 {
      MaxGapBounds(s[..n], limit);
      assert forall i :: 0 < i < n ==> s[..n][i] - s[..n][i - 1] == s[i] - s[i - 1];
    }
  }

  /** The coverage test on sorted ticks, gap by gap. */
  ghost predicate SmallGaps(s: seq<Time>, start: Time, end: Time, limit: Time) {
    && s != []
    && 0 <= s[0] - start <= limit
    && 0 <= end - s[|s| - 1] <= limit
    && forall i :: 0 < i < |s| ==> s[i] - s[i - 1] <= limit
  }

  lemma PassesIffSmallGaps(times: seq<Time>, start: Time, end: Time, limit: Time)
    ensures Passes(times, start, end, limit) <==> SmallGaps(SortBy(times, Leq), start, end, limit)
  {
    var s := SortBy(times, Leq);
    if |s| >= 2 {
      MaxGapBounds(s, limit);
    }
  }

  /** Small gaps leave no long stretch empty. */
  lemma SmallGapsDense(s: seq<Time>, start: Time, end: Time, limit: Time, a: Time, b: Time)
    requires Ascending(s) && SmallGaps(s, start, end, limit)
    requires start <= a && b <= end && b - a > limit
    ensures TickInside(s, a, b)
  {
    var i := 0;
    while i < |s| && s[i] <= a
      invariant 0 <= i <= |s|
      invariant i > 0 ==> s[i - 1] <= a
    {
      i := i + 1;
    }
    assert i < |s|;
    assert s[i] < b;
    assert s[i] in s;
  }

  /** With the ticks inside the window, coverage passes exactly when there is a tick and the window is dense. */
  lemma PassesIffDense(times: seq<Time>, start: Time, end: Time, limit: Time)
    requires forall t :: t in times ==> start <= t <= end
    ensures Passes(times, start, end, limit) <==> times != [] && Dense(times, start, end, limit)
  {
    var s := SortBy(times, Leq);
    SortedTimes(times);
    PassesIffSmallGaps(times, start, end, limit);
    if SmallGaps(s, start, end, limit) {
      forall a, b | start <= a && b <= end && b - a > limit ensures TickInside(times, a, b) {
        SmallGapsDense(s, start, end, limit, a, b);
      }
    }
    if times != [] && Dense(times, start, end, limit) {
      DenseSmallGaps(times, s, start, end, limit);
    }
  }

  lemma DenseSmallGaps(times: seq<Time>, s: seq<Time>, start: Time, end: Time, limit: Time)
    requires Ascending(s) && s != [] && (forall t :: t in s <==> t in times)
    requires forall t :: t in times ==> start <= t <= end
    requires Dense(times, start, end, limit)
    ensures SmallGaps(s, start, end, limit)
  {
    var n := |s| - 1;
    assert s[0] in times && s[n] in times;
    NoTickBetween(times, s, start, s[0], -1);
    NoTickBetween(times, s, s[n], end, n);
    forall i | 0 < i < |s| ensures s[i] - s[i - 1] <= limit {
      assert s[i] in times && s[i - 1] in times;
      NoTickBetween(times, s, s[i - 1], s[i], i - 1);
    }
  }

  /** Nothing lies strictly between a tick (or the start) and the next one (or the end). */
  lemma NoTickBetween(times: seq<Time>, s: seq<Time>, a: Time, b: Time, i: int)
    requires Ascending(s) && (forall t :: t in s <==> t in times) && -1 <= i < |s|
    requires i >= 0 ==> a == s[i]
    requires i + 1 < |s| ==> b == s[i + 1]
    ensures !TickInside(times, a, b)
  {
    forall t | t in times ensures !(a < t < b) {
      var k :| 0 <= k < |s| && s[k] == t;
      if k <= i {
        assert s[k] <= s[i];
      } else if i + 1 < |s| {
        assert s[i + 1] <= s[k];
      }
    }
  }

  // ---------------------------------------------------------------- how many ticks density forces

  lemma {:induction false} SpanBelowGaps(s: seq<Time>, limit: Time)
    requires s != [] && forall i :: 0 < i < |s| ==> s[i] - s[i - 1] <= limit
    ensures s[|s| - 1] - s[0] <= (|s| - 1) * limit
  {
    var n := |s| - 1;
    if n > 0 {
      SpanBelowGaps(s[..n], limit);
      assert s[n] - s[n - 1] <= limit;
      assert n * limit == (n - 1) * limit + limit;
    }
  }

  /** Passing coverage of a window takes at least its length over the limit, less one, ticks. */
  lemma PassingForcesTicks(times: seq<Time>, start: Time, end: Time, limit: Time)
    requires Passes(times, start, end, limit)
    ensures end - start <= (|times| + 1) * limit
  {
    var s := SortBy(times, Leq);
    SortedTimes(times);
    PassesIffSmallGaps(times, start, end, limit);
    SpanBelowGaps(s, limit);
    assert (|s| + 1) * limit == (|s| - 1) * limit + limit + limit;
  }

  // ---------------------------------------------------------------- the signed session windows

  datatype SessionName = NightOpen | NightSession | DayOpen | DaySession

  const SESSIONS: seq<SessionName> := [NightOpen, NightSession, DayOpen, DaySession]

  function CanonicalStart(n: SessionName): int {
    match n case NightOpen => 75600 case NightSession => 76200 case DayOpen => 32400 case DaySession => 33000
  }

  function CanonicalEnd(n: SessionName): int {
    match n case NightOpen => 75725 case NightSession => 76800 case DayOpen => 32525 case DaySession => 33600
  }

  predicate IsNight(n: SessionName) { n == NightOpen || n == NightSession }

  /** A session window the manifest check accepts for a trading date. */
  predicate Canonical(n: SessionName, start: Time, end: Time, tradingDate: int) {
    && start < end
    && LocalSecond(start) == CanonicalStart(n)
    && LocalSecond(end) == CanonicalEnd(n)
    && LocalDate(start) == LocalDate(end)
    && (if IsNight(n) then 1 <= tradingDate - LocalDate(start) <= 3 else LocalDate(start) == tradingDate)
  }

  lemma CanonicalLength(n: SessionName, start: Time, end: Time, tradingDate: int)
    requires Canonical(n, start, end, tradingDate)
    ensures end - start > 124 * SECOND
  {
    ClockDifference(start + CHINA_OFFSET, end + CHINA_OFFSET, CanonicalStart(n), CanonicalEnd(n));
  }

  lemma ClockDifference(a: Time, b: Time, x: int, y: int)
    requires a / DAY == b / DAY && (a % DAY) / SECOND == x && (b % DAY) / SECOND == y
    ensures b - a > (y - x - 1) * SECOND
  {}

  const SESSION_GAP: Time := 5 * SECOND
  const MIN_SESSION_ROWS: nat := 20
  const MIN_WINDOW_ROWS: nat := 11

  /** The 20-row minimum is redundant: an accepted session window that passes coverage has at least 24 ticks. */
  lemma CoverageForcesSessionRows(n: SessionName, start: Time, end: Time, tradingDate: int, times: seq<Time>)
    requires Canonical(n, start, end, tradingDate) && Passes(times, start, end, SESSION_GAP)
    ensures |times| >= 24 > MIN_SESSION_ROWS
  {
    CanonicalLength(n, start, end, tradingDate);
    PassingForcesTicks(times, start, end, SESSION_GAP);
  }

  // ---------------------------------------------------------------- execution windows

  /** Ten evenly spaced ticks after an origin. */
  function Evenly(origin: Time, step: Time): seq<Time> {
    [origin + step, origin + 2 * step, origin + 3 * step, origin + 4 * step, origin + 5 * step,
     origin + 6 * step, origin + 7 * step, origin + 8 * step, origin + 9 * step, origin + 10 * step]
  }

  function Spaced(at: Time, seconds: nat): seq<Time> { Evenly(at - seconds * SECOND, 2 * seconds * SECOND / 11) }

  /** In an execution window the 11-row minimum follows from coverage exactly when the half-width is at least 28 seconds. */
  lemma WindowMinimumRedundantExactly(at: Time, seconds: nat)
    requires 1 <= seconds <= 3600
    ensures (forall times: seq<Time> :: Passes(times, at - seconds * SECOND, at + seconds * SECOND, SESSION_GAP)
               ==> |times| >= MIN_WINDOW_ROWS)
       <==> seconds >= 28
  {
    var start, end := at - seconds * SECOND, at + seconds * SECOND;
    if seconds >= 28 {
      forall times: seq<Time> | Passes(times, start, end, SESSION_GAP) ensures |times| >= MIN_WINDOW_ROWS {
        PassingForcesTicks(times, start, end, SESSION_GAP);
      }
    } else {
      SpacedPasses(at, seconds);
      assert |Spaced(at, seconds)| < MIN_WINDOW_ROWS;
    }
  }

  /** Ten evenly spaced ticks pass every window of half-width below 28 seconds, on both sides of the execution time. */
  lemma SpacedPasses(at: Time, seconds: nat)
    requires 1 <= seconds < 28
    ensures Passes(Spaced(at, seconds), at - seconds * SECOND, at + seconds * SECOND, SESSION_GAP)
    ensures Spaced(at, seconds)[0] < at < Spaced(at, seconds)[9]
  {
    var step := 2 * seconds * SECOND / 11;
    assert 2 < step < SESSION_GAP - 11;
    EvenlyPasses(at - seconds * SECOND, at + seconds * SECOND, step);
  }

  lemma EvenlyPasses(start: Time, end: Time, step: Time)
    requires 2 < step < SESSION_GAP - 11
    requires 11 * step <= end - start < 11 * step + 11
    ensures Passes(Evenly(start, step), start, end, SESSION_GAP)
    ensures 2 * Evenly(start, step)[0] < start + end < 2 * Evenly(start, step)[9]
  {
    var s := Evenly(start, step);
    EvenSteps(start, step);
    AscendingIsSorted(s);
    PassesIffSmallGaps(s, start, end, SESSION_GAP);
  }

  lemma EvenSteps(start: Time, step: Time)
    requires step > 0
    ensures var s := Evenly(start, step);
      && s[0] == start + step && s[9] == start + 10 * step
      && (forall i :: 0 < i < |s| ==> s[i] - s[i - 1] == step)
      && Ascending(s)
  {
    StepsAscend(Evenly(start, step));
  }

  lemma StepsAscend(s: seq<Time>)
    requires forall i :: 0 < i < |s| ==> s[i - 1] <= s[i]
    ensures Ascending(s)
  {
    if |s| > 1 {
      var n := |s| - 1;
      StepsAscend(s[..n]);
      assert forall i, j :: 0 <= i < j < n ==> s[..n][i] <= s[..n][j];
      assert s[n - 1] <= s[n];
    }
  }

  lemma AscendingIsSorted(s: seq<Time>)
    requires Ascending(s)
    ensures SortBy(s, Leq) == s
  {
    TimeOrder();
    SortSorted(s, Leq);
    SortPermutes(s, Leq);
    SortedUnique(SortBy(s, Leq), s, Leq);
  }
}
