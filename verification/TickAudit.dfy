/** Auditing a contract's ticks: one pass feeds the whole stream, every session and every execution window. */
module TickAudit {
  import opened Optional
  import opened Clock
  import opened TickRows
  import opened TickMetrics
  import opened TickQuality
  import opened Coverage

  const MAX_ROWS: nat := 500_000

  datatype Role = Current | Previous

  datatype Contract = Contract(product: nat, role: Role, symbol: string)

  /** A session window; its end is exclusive. */
  datatype Span = Span(start: Time, end: Time)

  /** An execution window; both ends are inclusive. */
  datatype ExecutionWindow = ExecutionWindow(product: nat, symbol: string, at: Time, seconds: nat)

  function WindowStart(w: ExecutionWindow): Time { w.at - w.seconds * SECOND }

  function WindowEnd(w: ExecutionWindow): Time { w.at + w.seconds * SECOND }

  datatype Selector = Everything | Session(span: Span) | Around(window: ExecutionWindow)

  predicate Selects(s: Selector, t: Time) {
    match s
    case Everything => true
    case Session(span) => span.start <= t < span.end
    case Around(w) => WindowStart(w) <= t <= WindowEnd(w)
  }

  function Selected(rows: seq<Row>, s: Selector): seq<Row> {
    if rows == [] then []
    else
      var n := |rows| - 1;
      Selected(rows[..n], s) + (if Selects(s, rows[n].ts) then [rows[n]] else [])
  }

  function Times(rows: seq<Row>): seq<Time> { seq(|rows|, i requires 0 <= i < |rows| => rows[i].ts) }

  lemma {:induction false} SelectedExact(rows: seq<Row>, s: Selector, r: Row)
    ensures r in Selected(rows, s) <==> r in rows && Selects(s, r.ts)
  {
    if rows != [] {
      var n := |rows| - 1;
      SelectedExact(rows[..n], s, r);
      assert rows == rows[..n] + [rows[n]];
    }
  }

  /** A session takes the rows from its start up to but not including its end, a window those up to and including it. */
  lemma SelectedByTime(rows: seq<Row>, span: Span, w: ExecutionWindow, r: Row)
    ensures r in Selected(rows, Everything) <==> r in rows
    ensures r in Selected(rows, Session(span)) <==> r in rows && span.start <= r.ts < span.end
    ensures r in Selected(rows, Around(w)) <==>
      r in rows && w.at - w.seconds * 1_000_000 <= r.ts <= w.at + w.seconds * 1_000_000
  {
    SelectedExact(rows, Everything, r);
    SelectedExact(rows, Session(span), r);
    SelectedExact(rows, Around(w), r);
  }

  lemma SelectedAppend(rows: seq<Row>, r: Row, s: Selector)
    ensures Selected(rows + [r], s) == Selected(rows, s) + (if Selects(s, r.ts) then [r] else [])
  {
    assert (rows + [r])[..|rows|] == rows;
  }

  // ---------------------------------------------------------------- verdicts on segments

  /** The session verdict, from its ticks' classification and their coverage. */
  function SessionVerdict(q: Quality, times: seq<Time>, span: Span, minimum: nat): Quality {
    if |times| < minimum || !Passes(times, span.start, span.end, SESSION_GAP)
    then Worst([q, if times != [] then Degraded else Unusable]) else q
  }

  function WindowVerdict(q: Quality, times: seq<Time>, w: ExecutionWindow): Quality {
    if (forall t :: t in times ==> t >= w.at) || (forall t :: t in times ==> t < w.at)
       || |times| < MIN_WINDOW_ROWS || !Passes(times, WindowStart(w), WindowEnd(w), SESSION_GAP)
    then Worst([q, if times != [] then Degraded else Unusable]) else q
  }

  /** The 20-row session minimum never changes a verdict. */
  lemma SessionMinimumRedundant(name: SessionName, span: Span, date: int, q: Quality, times: seq<Time>)
    requires Canonical(name, span.start, span.end, date)
    ensures SessionVerdict(q, times, span, MIN_SESSION_ROWS) == SessionVerdict(q, times, span, 0)
  {
    if Passes(times, span.start, span.end, SESSION_GAP) {
      CoverageForcesSessionRows(name, span.start, span.end, date, times);
    }
  }

  lemma DowngradedNotUsable(q: Quality, some: bool)
    ensures Worst([q, if some then Degraded else Unusable]) != L5Usable
  {
    var list := [q, if some then Degraded else Unusable];
    assert list[..1] == [q];
    assert list[1] in list;
    WorstExact(list);
  }

  /** A session is usable exactly when its ticks classify as usable, number at least the minimum, and leave no gap. */
  lemma SessionUsableExact(q: Quality, times: seq<Time>, span: Span, minimum: nat)
    requires forall t :: t in times ==> span.start <= t <= span.end
    ensures SessionVerdict(q, times, span, minimum) == L5Usable <==>
      q == L5Usable && times != [] && |times| >= minimum && Dense(times, span.start, span.end, SESSION_GAP)
  {
    DowngradedNotUsable(q, times != []);
    PassesIffDense(times, span.start, span.end, SESSION_GAP);
  }

  /** A session that falls short keeps a grade that is already short; a usable one becomes degraded, or unusable when empty. */
  lemma SessionShortfall(q: Quality, times: seq<Time>, span: Span, minimum: nat)
    requires |times| < minimum || !Passes(times, span.start, span.end, SESSION_GAP)
    ensures SessionVerdict(q, times, span, minimum)
         == if times == [] then Unusable else if q == L5Usable then Degraded else q
  {
    WorstLadder([q, if times != [] then Degraded else Unusable]);
    WorstExact([q, if times != [] then Degraded else Unusable]);
  }

  /** The same of an execution window. */
  lemma WindowShortfall(q: Quality, times: seq<Time>, w: ExecutionWindow)
    requires WindowVerdict(q, times, w) != q
    ensures WindowVerdict(q, times, w) == if times == [] then Unusable else Degraded
    ensures times != [] ==> q == L5Usable
  {
    WorstLadder([q, if times != [] then Degraded else Unusable]);
    WorstExact([q, if times != [] then Degraded else Unusable]);
  }

  lemma WindowUsableExact(q: Quality, times: seq<Time>, w: ExecutionWindow)
    requires forall t :: t in times ==> WindowStart(w) <= t <= WindowEnd(w)
    ensures WindowVerdict(q, times, w) == L5Usable <==>
      && q == L5Usable && |times| >= MIN_WINDOW_ROWS
      && (exists t :: t in times && t < w.at) && (exists t :: t in times && t >= w.at)
      && Dense(times, WindowStart(w), WindowEnd(w), SESSION_GAP)
  {
    DowngradedNotUsable(q, times != []);
    PassesIffDense(times, WindowStart(w), WindowEnd(w), SESSION_GAP);
  }

  // ---------------------------------------------------------------- one contract

  datatype Segment = Segment(rows: nat, quality: Quality)

  datatype ContractResult = ContractResult(contract: Contract, rows: nat, quality: Quality, sessions: seq<Segment>)

  datatype WindowResult = WindowResult(product: nat, symbol: string, quality: Quality)

  datatype AuditOutcome<T> = Audited(value: T) | AuditError(message: string)

  ghost function SessionSegment(rows: seq<Row>, day: string, span: Span): Segment {
    var inside := Selected(rows, Session(span));
    Segment(|inside|, SessionVerdict(Classify(inside, Some(day)), Times(inside), span, MIN_SESSION_ROWS))
  }

  ghost function SessionSegments(rows: seq<Row>, day: string, sessions: seq<Span>): seq<Segment> {
    seq(|sessions|, k requires 0 <= k < |sessions| => SessionSegment(rows, day, sessions[k]))
  }

  ghost function WindowOutcome(rows: seq<Row>, day: string, w: ExecutionWindow): WindowResult {
    var inside := Selected(rows, Around(w));
    WindowResult(w.product, w.symbol, WindowVerdict(Classify(inside, Some(day)), Times(inside), w))
  }

  ghost function WindowOutcomes(rows: seq<Row>, day: string, windows: seq<ExecutionWindow>): seq<WindowResult> {
    seq(|windows|, k requires 0 <= k < |windows| => WindowOutcome(rows, day, windows[k]))
  }

  function SegmentGrade(s: Segment): Quality { s.quality }

  /** The contract verdict: the whole stream, and for the current contract every session. */
  function ContractVerdict(role: Role, all: Quality, sessions: seq<Segment>): Quality {
    if role == Previous then Worst([all])
    else
      Worst([all] + GradesOf(sessions, SegmentGrade)
        + (if exists s :: s in sessions && 0 < s.rows < MIN_SESSION_ROWS then [Degraded] else []))
  }

  /** A contract is as bad as the worst of its stream and, when current, its sessions; a thin session degrades a usable one. */
  lemma ContractVerdictLadder(role: Role, all: Quality, sessions: seq<Segment>)
    ensures ContractVerdict(Previous, all, sessions) == all
    ensures ContractVerdict(Current, all, sessions) == Unusable <==>
      all == Unusable || exists s :: s in sessions && s.quality == Unusable
    ensures ContractVerdict(Current, all, sessions) == L1Only <==>
      && all != Unusable && (forall s :: s in sessions ==> s.quality != Unusable)
      && (all == L1Only || exists s :: s in sessions && s.quality == L1Only)
  {
    var qs := GradesOf(sessions, SegmentGrade);
    var few := if exists s :: s in sessions && 0 < s.rows < MIN_SESSION_ROWS then [Degraded] else [];
    forall q ensures q in qs <==> exists s :: s in sessions && s.quality == q {
      if s :| s in sessions && s.quality == q {
        var k :| 0 <= k < |sessions| && sessions[k] == s;
        assert qs[k] == q;
      }
    }
    WorstLadder([all] + qs + few);
    assert forall q :: q in [all] + qs + few <==> q == all || q in qs || q in few;
  }

  ghost function ContractOutcome(c: Contract, rows: seq<Row>, day: string, sessions: seq<Span>): ContractResult {
    var segments := SessionSegments(rows, day, sessions);
    var everything := Classify(Selected(rows, Everything), Some(day));
    ContractResult(c, |rows|, ContractVerdict(c.role, everything, segments), segments)
  }

  /** An accumulator and its list of times, fed the rows its selector takes. */
  ghost predicate FedOne(acc: MetricsAccumulator, times: seq<Time>, s: Selector, rows: seq<Row>, day: string)
    reads acc
  {
    acc.Valid() && acc.day == Some(day) && acc.rows == Selected(rows, s) && times == Times(acc.rows)
  }

  /** One accumulator per selector, all among the objects `repr`. */
  ghost predicate Fed(accs: seq<MetricsAccumulator>, times: seq<seq<Time>>, selectors: seq<Selector>, rows: seq<Row>, day: string,
                      repr: set<MetricsAccumulator>)
    reads repr
  {
    && |accs| == |times| == |selectors|
    && (forall j, k :: 0 <= j < k < |accs| ==> accs[j] != accs[k])
    && forall k {:trigger accs[k]} :: 0 <= k < |accs| ==> accs[k] in repr && FedOne(accs[k], times[k], selectors[k], rows, day)
  }

  method StartAccumulators(selectors: seq<Selector>, day: string)
    returns (accs: seq<MetricsAccumulator>, times: seq<seq<Time>>, ghost repr: set<MetricsAccumulator>)
    ensures Fed(accs, times, selectors, [], day, repr)
    ensures fresh(repr)
  {
    accs, times, repr := [], [], {};
    for k := 0 to |selectors|
      invariant |accs| == |times| == k
      invariant fresh(repr)
      invariant forall i, j :: 0 <= i < j < |accs| ==> accs[i] != accs[j]
      invariant forall i :: 0 <= i < |accs| ==> accs[i] in repr && FedOne(accs[i], times[i], selectors[i], [], day)
    {
      var acc := new MetricsAccumulator(Some(day));
      accs, times, repr := accs + [acc], times + [[]], repr + {acc};
    }
  }

  method FeedOne(acc: MetricsAccumulator, times0: seq<Time>, s: Selector, ghost rows: seq<Row>, r: Row, ghost day: string)
    returns (times: seq<Time>)
    requires FedOne(acc, times0, s, rows, day)
    modifies acc
    ensures FedOne(acc, times, s, rows + [r], day)
  {
    times := times0;
    SelectedAppend(rows, r, s);
    if Selects(s, r.ts) {
      acc.Add(r);
      times := times + [r.ts];
    }
  }

  method FeedRow(accs: seq<MetricsAccumulator>, times0: seq<seq<Time>>, selectors: seq<Selector>, ghost rows: seq<Row>, r: Row,
                 ghost day: string, ghost repr: set<MetricsAccumulator>)
    returns (times: seq<seq<Time>>)
    requires Fed(accs, times0, selectors, rows, day, repr)
    modifies repr
    ensures Fed(accs, times, selectors, rows + [r], day, repr)
  {
    hide FedOne;
    times := times0;
    for k := 0 to |accs|
      invariant |times| == |accs|
      invariant forall i :: 0 <= i < k ==> FedOne(accs[i], times[i], selectors[i], rows + [r], day)
      invariant forall i :: k <= i < |accs| ==> FedOne(accs[i], times[i], selectors[i], rows, day)
    {
      var fed := FeedOne(accs[k], times[k], selectors[k], rows, r, day);
      times := times[k := fed];
    }
  }

  /** One pass over the rows, up to the limit. */
  method StreamRows(accs: seq<MetricsAccumulator>, times0: seq<seq<Time>>, selectors: seq<Selector>, rows: seq<Row>,
                    ghost day: string, ghost repr: set<MetricsAccumulator>)
    returns (ok: bool, times: seq<seq<Time>>)
    requires Fed(accs, times0, selectors, [], day, repr)
    modifies repr
    ensures ok <==> |rows| <= MAX_ROWS
    ensures ok ==> Fed(accs, times, selectors, rows, day, repr)
  {
    hide Fed;
    times := times0;
    assert rows[..0] == [];
    for i := 0 to |rows|
      invariant i <= MAX_ROWS
      invariant Fed(accs, times, selectors, rows[..i], day, repr)
    {
      if i + 1 > MAX_ROWS {
        return false, times;
      }
      assert rows[..i + 1] == rows[..i] + [rows[i]];
      times := FeedRow(accs, times, selectors, rows[..i], rows[i], day, repr);
    }
    assert rows[..|rows|] == rows;
    ok := true;
  }

  method ReadSession(acc: MetricsAccumulator, times: seq<Time>, ghost rows: seq<Row>, ghost day: string, span: Span)
    returns (segment: Segment)
    requires FedOne(acc, times, Session(span), rows, day)
    ensures segment == SessionSegment(rows, day, span)
  {
    var q := Result(acc);
    segment := Segment(acc.rowCount, SessionVerdict(q, times, span, MIN_SESSION_ROWS));
  }

  method ReadWindow(acc: MetricsAccumulator, times: seq<Time>, ghost rows: seq<Row>, ghost day: string, w: ExecutionWindow)
    returns (outcome: WindowResult)
    requires FedOne(acc, times, Around(w), rows, day)
    ensures outcome == WindowOutcome(rows, day, w)
  {
    var q := Result(acc);
    outcome := WindowResult(w.product, w.symbol, WindowVerdict(q, times, w));
  }

  /** Reads the session verdicts off their accumulators. */
  method ReadSessions(accs: seq<MetricsAccumulator>, times: seq<seq<Time>>, selectors: seq<Selector>, ghost rows: seq<Row>,
                      ghost day: string, sessions: seq<Span>, ghost repr: set<MetricsAccumulator>)
    returns (segments: seq<Segment>)
    requires Fed(accs, times, selectors, rows, day, repr)
    requires |selectors| >= 1 + |sessions| && forall k :: 0 <= k < |sessions| ==> selectors[1 + k] == Session(sessions[k])
    ensures segments == SessionSegments(rows, day, sessions)
  {
    hide FedOne, SessionSegment;
    segments := [];
    for k := 0 to |sessions|
      invariant |segments| == k && forall i :: 0 <= i < k ==> segments[i] == SessionSegment(rows, day, sessions[i])
    {
      var segment := ReadSession(accs[1 + k], times[1 + k], rows, day, sessions[k]);
      segments := segments + [segment];
    }
  }

  method ReadWindows(accs: seq<MetricsAccumulator>, times: seq<seq<Time>>, selectors: seq<Selector>, ghost rows: seq<Row>,
                     ghost day: string, windows: seq<ExecutionWindow>, base: nat, ghost repr: set<MetricsAccumulator>)
    returns (outcomes: seq<WindowResult>)
    requires Fed(accs, times, selectors, rows, day, repr)
    requires |selectors| == base + |windows| && forall k :: 0 <= k < |windows| ==> selectors[base + k] == Around(windows[k])
    ensures outcomes == WindowOutcomes(rows, day, windows)
  {
    hide FedOne, WindowOutcome;
    outcomes := [];
    for k := 0 to |windows|
      invariant |outcomes| == k && forall i :: 0 <= i < k ==> outcomes[i] == WindowOutcome(rows, day, windows[i])
    {
      var outcome := ReadWindow(accs[base + k], times[base + k], rows, day, windows[k]);
      outcomes := outcomes + [outcome];
    }
  }

  function AllSelectors(sessions: seq<Span>, windows: seq<ExecutionWindow>): (r: seq<Selector>)
    ensures |r| == 1 + |sessions| + |windows|
    ensures r[0] == Everything
    ensures forall k :: 0 <= k < |sessions| ==> r[1 + k] == Session(sessions[k])
    ensures forall k :: 0 <= k < |windows| ==> r[1 + |sessions| + k] == Around(windows[k])
  {
    [Everything] + SessionSelectors(sessions) + WindowSelectors(windows)
  }

  method ReadEverything(accs: seq<MetricsAccumulator>, ghost times: seq<seq<Time>>, ghost selectors: seq<Selector>,
                        ghost rows: seq<Row>, ghost day: string, ghost repr: set<MetricsAccumulator>)
    returns (q: Quality)
    requires Fed(accs, times, selectors, rows, day, repr) && selectors != [] && selectors[0] == Everything
    ensures q == Classify(Selected(rows, Everything), Some(day))
  {
    assert FedOne(accs[0], times[0], selectors[0], rows, day);
    q := Result(accs[0]);
  }

  /** The contract's results, read off its accumulators after the pass. */
  method ReadVerdicts(accs: seq<MetricsAccumulator>, times: seq<seq<Time>>, selectors: seq<Selector>, c: Contract,
                      rows: seq<Row>, ghost day: string, sessions: seq<Span>, windows: seq<ExecutionWindow>,
                      ghost repr: set<MetricsAccumulator>)
    returns (contract: ContractResult, outcomes: seq<WindowResult>)
    requires selectors == AllSelectors(sessions, windows) && Fed(accs, times, selectors, rows, day, repr)
    ensures contract == ContractOutcome(c, rows, day, sessions)
    ensures outcomes == WindowOutcomes(rows, day, windows)
  {
    hide Fed, FedOne, SessionSegments, WindowOutcomes, Classify, ContractVerdict, AllSelectors;
    var all := ReadEverything(accs, times, selectors, rows, day, repr);
    var segments := ReadSessions(accs, times, selectors, rows, day, sessions, repr);
    outcomes := ReadWindows(accs, times, selectors, rows, day, windows, 1 + |sessions|, repr);
    contract := ContractResult(c, |rows|, ContractVerdict(c.role, all, segments), segments);
  }

  /** Streams the contract's rows once; refuses a contract over the row limit. */
  method AuditContract(c: Contract, rows: seq<Row>, day: string, sessions: seq<Span>, windows: seq<ExecutionWindow>)
    returns (r: AuditOutcome<(ContractResult, seq<WindowResult>)>)
    ensures r.Audited? <==> |rows| <= 500_000
    ensures r.Audited? ==> r.value.0 == ContractOutcome(c, rows, day, sessions)
    ensures r.Audited? ==> r.value.1 == WindowOutcomes(rows, day, windows)
  {
    var selectors := AllSelectors(sessions, windows);
    var accs, times, repr := StartAccumulators(selectors, day);
    var ok;
    ok, times := StreamRows(accs, times, selectors, rows, day, repr);
    if !ok {
      return AuditError("row query limit exceeded");
    }
    var contract, outcomes := ReadVerdicts(accs, times, selectors, c, rows, day, sessions, windows, repr);
    return Audited((contract, outcomes));
  }

  function SessionSelectors(sessions: seq<Span>): (r: seq<Selector>)
    ensures |r| == |sessions| && forall k :: 0 <= k < |r| ==> r[k] == Session(sessions[k])
  {
    seq(|sessions|, k requires 0 <= k < |sessions| => Session(sessions[k]))
  }

  function WindowSelectors(windows: seq<ExecutionWindow>): (r: seq<Selector>)
    ensures |r| == |windows| && forall k :: 0 <= k < |r| ==> r[k] == Around(windows[k])
  {
    seq(|windows|, k requires 0 <= k < |windows| => Around(windows[k]))
  }
}
