/** The four signed session windows: what the manifest accepts, and why they can never overlap. */
module SessionWindows {
  import opened Clock
  import opened Sorting
  import opened Coverage
  import opened TickQuality
  import opened TickAudit

  predicate Apart(a: Span, b: Span) { a.end < b.start || b.end < a.start }

  /** The manifest's windows, in the order of the required session names. */
  predicate WindowAllowed(raw: seq<Span>, k: nat, audit: Span, date: int)
    requires |raw| == |SESSIONS| && k < |raw|
  {
    audit.start <= raw[k].start && raw[k].end <= audit.end && Canonical(SESSIONS[k], raw[k].start, raw[k].end, date)
  }

  lemma ClockOrder(a: Time, b: Time, x: int, y: int)
    requires (a % DAY) / SECOND == x && (b % DAY) / SECOND == y && x < y && a / DAY <= b / DAY
    ensures a < b
  {}

  /** Windows of two different sessions lie apart, on whichever nights their dates put them. */
  lemma CanonicalApart(n: SessionName, m: SessionName, a: Span, b: Span, date: int)
    requires n != m && Canonical(n, a.start, a.end, date) && Canonical(m, b.start, b.end, date)
    ensures Apart(a, b) && (a.end < b.start || b.end < a.start)
  {
    var dayA, dayB := LocalDate(a.start), LocalDate(b.start);
    if dayA < dayB || (dayA == dayB && CanonicalEnd(n) < CanonicalStart(m)) {
      EarlierEnds(a.end + CHINA_OFFSET, b.start + CHINA_OFFSET, CanonicalEnd(n), CanonicalStart(m));
    } else {
      EarlierEnds(b.end + CHINA_OFFSET, a.start + CHINA_OFFSET, CanonicalEnd(m), CanonicalStart(n));
    }
  }

  lemma EarlierEnds(end: Time, start: Time, x: int, y: int)
    requires (end % DAY) / SECOND == x && (start % DAY) / SECOND == y
    requires end / DAY < start / DAY || (end / DAY == start / DAY && x < y)
    ensures end < start
  {
    if end / DAY == start / DAY {
      ClockOrder(end, start, x, y);
    } else {
      assert end < (end / DAY + 1) * DAY <= start / DAY * DAY <= start;
    }
  }

  /** Second of the China clock. */
  function At(hour: nat, minute: nat, second: nat): int { hour * 3600 + minute * 60 + second }

  /** The instant lies in that second of the China day. */
  predicate InSecond(t: Time, day: int, second: int) {
    day * DAY - CHINA_OFFSET + second * SECOND <= t < day * DAY - CHINA_OFFSET + (second + 1) * SECOND
  }

  lemma SecondOfDay(t: Time, day: int, second: int)
    requires 0 <= second < 86400
    ensures InSecond(t, day, second) <==> LocalDate(t) == day && LocalSecond(t) == second
  {
    var u := t + CHINA_OFFSET;
    UnitOf(u, DAY, day);
    UnitOf(u % DAY, SECOND, second);
    if LocalDate(t) == day {
      assert u == day * DAY + u % DAY;
    }
  }

  lemma UnitOf(u: int, unit: int, k: int)
    requires unit == DAY || unit == SECOND
    ensures u / unit == k <==> k * unit <= u < (k + 1) * unit
  {}

  predicate From(a: Span, day: int, first: int, last: int) { a.start < a.end && InSecond(a.start, day, first) && InSecond(a.end, day, last) }

  /** The four windows on the China clock, the night ones up to three days before the trading date. */
  lemma CanonicalClock(a: Span, date: int)
    ensures Canonical(DayOpen, a.start, a.end, date) <==> From(a, date, At(9, 0, 0), At(9, 2, 5))
    ensures Canonical(DaySession, a.start, a.end, date) <==> From(a, date, At(9, 10, 0), At(9, 20, 0))
    ensures Canonical(NightOpen, a.start, a.end, date) <==>
      exists day :: date - 3 <= day < date && From(a, day, At(21, 0, 0), At(21, 2, 5))
    ensures Canonical(NightSession, a.start, a.end, date) <==>
      exists day :: date - 3 <= day < date && From(a, day, At(21, 10, 0), At(21, 20, 0))
  {
    hide InSecond, LocalDate, LocalSecond;
    forall t: Time, day: int, second: int | 0 <= second < 86400
      ensures InSecond(t, day, second) <==> LocalDate(t) == day && LocalSecond(t) == second
    {
      SecondOfDay(t, day, second);
    }
    var own := LocalDate(a.start);
    assert From(a, own, At(21, 0, 0), At(21, 2, 5)) <==> Canonical(NightOpen, a.start, a.end, own + 1);
    assert From(a, own, At(21, 10, 0), At(21, 20, 0)) <==> Canonical(NightSession, a.start, a.end, own + 1);
  }

  function Itself(s: Span): Span { s }

  function StartLeq(a: Span, b: Span): bool { a.start <= b.start }

  /** Reordering windows that lie apart and are not empty keeps them apart, and none is listed twice. */
  lemma ApartPermutes(raw: seq<Span>, s: seq<Span>)
    requires multiset(raw) == multiset(s)
    requires forall i :: 0 <= i < |raw| ==> raw[i].start < raw[i].end
    requires forall i, j :: 0 <= i < |raw| && 0 <= j < |raw| && i != j ==> Apart(raw[i], raw[j])
    ensures forall i, j :: 0 <= i < j < |s| ==> Apart(s[i], s[j])
  {
    SameElements(raw, s);
    assert DistinctBy(raw, Itself);
    DistinctPermutes(raw, s, Itself);
    forall i, j | 0 <= i < j < |s| ensures Apart(s[i], s[j]) {
      assert Itself(s[i]) != Itself(s[j]) && s[i] in raw && s[j] in raw;
      var p :| 0 <= p < |raw| && raw[p] == s[i];
      var q :| 0 <= q < |raw| && raw[q] == s[j];
      assert p != q;
    }
  }

  lemma AllApart(raw: seq<Span>, audit: Span, date: int)
    requires |raw| == |SESSIONS| && forall k :: 0 <= k < |raw| ==> WindowAllowed(raw, k, audit, date)
    ensures forall i, j :: 0 <= i < |raw| && 0 <= j < |raw| && i != j ==> Apart(raw[i], raw[j])
  {
    forall i, j | 0 <= i < |raw| && 0 <= j < |raw| && i != j ensures Apart(raw[i], raw[j]) {
      assert SESSIONS[i] != SESSIONS[j] && WindowAllowed(raw, i, audit, date) && WindowAllowed(raw, j, audit, date);
      CanonicalApart(SESSIONS[i], SESSIONS[j], raw[i], raw[j], date);
    }
  }

  /** Accepts exactly the windows that are in range and canonical; the overlap check never refuses any. */
  method ManifestSessionWindows(raw: seq<Span>, audit: Span, date: int) returns (r: AuditOutcome<seq<Span>>)
    requires |raw| == |SESSIONS|
    ensures r.Audited? <==> forall k :: 0 <= k < |raw| ==> WindowAllowed(raw, k, audit, date)
    ensures r.Audited? ==> r.value == raw
    ensures r != AuditError("session windows overlap")
  {
    for k := 0 to |raw|
      invariant forall i :: 0 <= i < k ==> WindowAllowed(raw, i, audit, date)
    {
      assert WindowAllowed(raw, k, audit, date) ==> raw[k].start < raw[k].end;
      if raw[k].end <= raw[k].start {
        return AuditError("session window end must be later than start");
      }
      if raw[k].start < audit.start || raw[k].end > audit.end {
        return AuditError("session window is outside signed audit window");
      }
      if !Canonical(SESSIONS[k], raw[k].start, raw[k].end, date) {
        return AuditError("session window must use canonical China time");
      }
    }
    var ordered := SortBy(raw, StartLeq);
    AllApart(raw, audit, date);
    forall i | 0 <= i < |raw| ensures raw[i].start < raw[i].end {
      assert WindowAllowed(raw, i, audit, date);
    }
    SortPermutes(raw, StartLeq);
    assert TotalPreorder(StartLeq);
    SortSorted(raw, StartLeq);
    ApartPermutes(raw, ordered);
    for i := 1 to |ordered| {
      assert Apart(ordered[i - 1], ordered[i]) && StartLeq(ordered[i - 1], ordered[i]) && ordered[i] in raw;
      if ordered[i].start < ordered[i - 1].end {
        return AuditError("session windows overlap");
      }
    }
    return Audited(raw);
  }

  /** In accepted windows the 20-row minimum decides nothing: every session verdict is the same without it. */
  lemma MinimumNeverDecides(raw: seq<Span>, audit: Span, date: int, k: nat, q: Quality, times: seq<Time>)
    requires |raw| == |SESSIONS| && k < |raw| && WindowAllowed(raw, k, audit, date)
    ensures SessionVerdict(q, times, raw[k], MIN_SESSION_ROWS) == SessionVerdict(q, times, raw[k], 0)
  {
    SessionMinimumRedundant(SESSIONS[k], raw[k], date, q, times);
  }
}
