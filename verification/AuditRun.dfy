/** A whole audit: every contract's ticks, the ten products, the verdict, and what the verdict means for the ticks. */
module AuditRun {
  import opened Optional
  import opened Clock
  import Book
  import opened TickRows
  import opened TickQuality
  import opened Coverage
  import opened TickAudit
  import opened AuditVerdict

  /** A day's input: the contracts with the rows their queries return, the session and execution windows, the expected rolls. */
  datatype Day = Day(
    date: string, contracts: seq<Contract>, queries: seq<seq<Row>>, sessions: seq<Span>, windows: seq<ExecutionWindow>, rolls: set<nat>)

  ghost predicate Valid(d: Day) { |d.queries| == |d.contracts| && |d.sessions| == |SESSIONS| && d.date != "" }

  datatype Verdict = Verdict(products: seq<ProductResult>, blockers: seq<Blocked>, overall: Quality, pass: bool)

  datatype Blocked = Blocked(product: nat, blocker: Blocker)

  // ---------------------------------------------------------------- results of the contracts

  ghost predicate IsOutcome(d: Day, n: nat, o: WindowResult, i: nat, w: ExecutionWindow)
    requires Valid(d)
  {
    i < n <= |d.contracts| && w in d.windows && w.symbol == d.contracts[i].symbol && o == WindowOutcome(d.queries[i], d.date, w)
  }

  /** The window results are those of the first `n` contracts, each on its own windows. */
  ghost predicate OutcomesExact(d: Day, n: nat, outcomes: seq<WindowResult>)
    requires Valid(d)
  {
    forall o :: o in outcomes <==> exists i: nat, w :: IsOutcome(d, n, o, i, w)
  }

  ghost predicate ContractsExact(d: Day, n: nat, results: seq<ContractResult>)
    requires Valid(d)
  {
    && |results| == n <= |d.contracts|
    && forall i :: 0 <= i < n ==> results[i] == ContractOutcome(d.contracts[i], d.queries[i], d.date, d.sessions)
  }

  function WindowsFor(d: Day, symbol: string): seq<ExecutionWindow> {
    Filter(d.windows, (w: ExecutionWindow) => w.symbol == symbol)
  }

  /** A window's result on contract `n` is among the results read for that contract, and nothing else is. */
  lemma OutcomesOfOne(d: Day, n: nat, m: nat, more: seq<WindowResult>, o: WindowResult)
    requires Valid(d) && n < m == n + 1 <= |d.contracts|
    requires more == WindowOutcomes(d.queries[n], d.date, WindowsFor(d, d.contracts[n].symbol))
    ensures o in more <==> exists w :: IsOutcome(d, m, o, n, w)
  {
    var symbol := d.contracts[n].symbol;
    var f := (w: ExecutionWindow) => w.symbol == symbol;
    var own := Filter(d.windows, f);
    assert own == WindowsFor(d, symbol);
    if o in more {
      var k :| 0 <= k < |more| && more[k] == o;
      FilterExact(d.windows, f, own[k]);
      assert IsOutcome(d, m, o, n, own[k]);
    }
    if w :| IsOutcome(d, m, o, n, w) {
      FilterExact(d.windows, f, w);
      var k :| 0 <= k < |own| && own[k] == w;
      assert more[k] == o;
    }
  }

  lemma OutcomesWiden(d: Day, n: nat, m: nat, o: WindowResult)
    requires Valid(d) && n < m == n + 1 <= |d.contracts|
    ensures (exists i: nat, w :: IsOutcome(d, m, o, i, w)) <==>
      (exists i: nat, w :: IsOutcome(d, n, o, i, w)) || (exists w :: IsOutcome(d, m, o, n, w))
  {
    hide WindowOutcome;
    if i: nat, w :| IsOutcome(d, n, o, i, w) {
      assert IsOutcome(d, m, o, i, w);
    }
    if i: nat, w :| IsOutcome(d, m, o, i, w) {
      assert i < n ==> IsOutcome(d, n, o, i, w);
    }
  }

  lemma OutcomesStep(d: Day, n: nat, m: nat, outcomes: seq<WindowResult>, more: seq<WindowResult>)
    requires Valid(d) && n < m == n + 1 <= |d.contracts| && OutcomesExact(d, n, outcomes)
    requires more == WindowOutcomes(d.queries[n], d.date, WindowsFor(d, d.contracts[n].symbol))
    ensures OutcomesExact(d, m, outcomes + more)
  {
    hide IsOutcome, WindowOutcome, WindowsFor, WindowOutcomes;
    forall o ensures o in outcomes + more <==> exists i: nat, w :: IsOutcome(d, m, o, i, w) {
      OutcomesOfOne(d, n, m, more, o);
      OutcomesWiden(d, n, m, o);
    }
  }

  lemma NothingYet(d: Day)
    requires Valid(d)
    ensures ContractsExact(d, 0, []) && OutcomesExact(d, 0, [])
  {}

  lemma ContractsStep(d: Day, n: nat, m: nat, results: seq<ContractResult>, one: ContractResult)
    requires Valid(d) && n < m == n + 1 <= |d.contracts| && ContractsExact(d, n, results)
    requires one == ContractOutcome(d.contracts[n], d.queries[n], d.date, d.sessions)
    ensures ContractsExact(d, m, results + [one])
  {
    hide ContractOutcome;
  }

  method AuditContracts(d: Day) returns (r: AuditOutcome<(seq<ContractResult>, seq<WindowResult>)>)
    requires Valid(d)
    ensures r.Audited? <==> forall i :: 0 <= i < |d.queries| ==> |d.queries[i]| <= MAX_ROWS
    ensures r.Audited? ==> ContractsExact(d, |d.contracts|, r.value.0) && OutcomesExact(d, |d.contracts|, r.value.1)
  {
    hide ContractsExact, OutcomesExact, ContractOutcome, WindowOutcomes, WindowsFor;
    var results: seq<ContractResult>, outcomes: seq<WindowResult> := [], [];
    NothingYet(d);
    for n := 0 to |d.contracts|
      invariant forall i :: 0 <= i < n ==> |d.queries[i]| <= MAX_ROWS
      invariant ContractsExact(d, n, results) && OutcomesExact(d, n, outcomes)
    {
      var one := AuditContract(d.contracts[n], d.queries[n], d.date, d.sessions, WindowsFor(d, d.contracts[n].symbol));
      if one.AuditError? {
        return AuditError(one.message);
      }
      ContractsStep(d, n, n + 1, results, one.value.0);
      OutcomesStep(d, n, n + 1, outcomes, one.value.1);
      results, outcomes := results + [one.value.0], outcomes + one.value.1;
    }
    return Audited((results, outcomes));
  }

  // ---------------------------------------------------------------- the verdict

  ghost predicate PassesUpTo(contracts: seq<ContractResult>, windows: seq<WindowResult>, rolls: set<nat>, n: nat) {
    forall p: nat :: p < n ==> ProductPasses(contracts, windows, p, p in rolls)
  }

  ghost predicate GradesUpTo(contracts: seq<ContractResult>, windows: seq<WindowResult>, rolls: set<nat>, n: nat) {
    forall p: nat :: p < n ==> GradePasses(contracts, windows, p, p in rolls)
  }

  function Tagged(p: nat, blockers: seq<Blocker>): (r: seq<Blocked>)
    ensures |r| == |blockers| && forall i :: 0 <= i < |r| ==> r[i] == Blocked(p, blockers[i])
  {
    seq(|blockers|, i requires 0 <= i < |blockers| => Blocked(p, blockers[i]))
  }

  /** A product's line: its place, its worst contributing grade, its rows and its session shortfalls. */
  ghost predicate LineExact(contracts: seq<ContractResult>, windows: seq<WindowResult>, rolls: set<nat>, p: nat, r: ProductResult) {
    && r.product == p && r.rows == TotalRows(OfProduct(contracts, p))
    && IsWorst(contracts, windows, p, p in rolls, r.quality)
    && SessionsExact(FirstFit(contracts, p, Current), r.missing, r.insufficient)
  }

  /** The blockers are the shortfalls of the products, each under its product. */
  ghost predicate BlockersExact(
    contracts: seq<ContractResult>, windows: seq<WindowResult>, rolls: set<nat>, products: seq<ProductResult>, blockers: seq<Blocked>)
  {
    forall b :: b in blockers <==>
      b.product < |products| && b.blocker in ProductBlockers(contracts, windows, b.product, b.product in rolls, products[b.product])
  }

  lemma BlockersStep(contracts: seq<ContractResult>, windows: seq<WindowResult>, rolls: set<nat>, products: seq<ProductResult>,
                     blockers: seq<Blocked>, result: ProductResult, more: seq<Blocker>)
    requires BlockersExact(contracts, windows, rolls, products, blockers)
    requires more == ProductBlockers(contracts, windows, |products|, |products| in rolls, result)
    ensures BlockersExact(contracts, windows, rolls, products + [result], blockers + Tagged(|products|, more))
  {
    hide ProductBlockers;
    var p := |products|;
    var tagged := Tagged(p, more);
    forall b ensures b in tagged <==> b.product == p && b.blocker in more {
      if b.product == p && b.blocker in more {
        var i :| 0 <= i < |more| && more[i] == b.blocker;
        assert tagged[i] == b;
      }
    }
    var longer := products + [result];
    assert forall i :: 0 <= i < p ==> longer[i] == products[i];
    assert longer[p] == result;
  }

  /** Grades the ten products in turn. */
  method SummarizeProducts(contracts: seq<ContractResult>, windows: seq<WindowResult>, rolls: set<nat>)
    returns (products: seq<ProductResult>, blockers: seq<Blocked>)
    requires forall c :: c in contracts ==> |c.sessions| == |SESSIONS|
    ensures |products| == |Book.PRODUCTS|
    ensures forall p :: 0 <= p < |products| ==> LineExact(contracts, windows, rolls, p, products[p])
    ensures BlockersExact(contracts, windows, rolls, products, blockers)
    ensures AllBest(products) <==> GradesUpTo(contracts, windows, rolls, |Book.PRODUCTS|)
    ensures AllBest(products) && blockers == [] <==> PassesUpTo(contracts, windows, rolls, |Book.PRODUCTS|)
  {
    hide LineExact, BlockersExact, ProductBlockers, GradesUpTo, PassesUpTo, GradePasses, ProductPasses, AllBest, IsWorst, SessionsExact;
    products, blockers := [], [];
    NothingBlocked(contracts, windows, rolls);
    for p := 0 to |Book.PRODUCTS|
      invariant |products| == p && forall i :: 0 <= i < p ==> LineExact(contracts, windows, rolls, i, products[i])
      invariant BlockersExact(contracts, windows, rolls, products, blockers)
      invariant AllBest(products) <==> GradesUpTo(contracts, windows, rolls, p)
      invariant AllBest(products) && blockers == [] <==> PassesUpTo(contracts, windows, rolls, p)
    {
      var result, more := SummarizeProduct(contracts, windows, p, p in rolls);
      LineIs(contracts, windows, rolls, p, result);
      BlockersStep(contracts, windows, rolls, products, blockers, result, more);
      AllBestStep(products, result);
      UpToStep(contracts, windows, rolls, p, p + 1);
      products, blockers := products + [result], blockers + Tagged(p, more);
    }
  }

  predicate AllBest(products: seq<ProductResult>) { forall p :: 0 <= p < |products| ==> products[p].quality == L5Usable }

  lemma AllBestStep(products: seq<ProductResult>, r: ProductResult)
    ensures AllBest(products + [r]) <==> AllBest(products) && r.quality == L5Usable
  {
    var longer := products + [r];
    assert longer[|products|] == r && forall i :: 0 <= i < |products| ==> longer[i] == products[i];
  }

  lemma NothingBlocked(contracts: seq<ContractResult>, windows: seq<WindowResult>, rolls: set<nat>)
    ensures BlockersExact(contracts, windows, rolls, [], []) && AllBest([])
    ensures GradesUpTo(contracts, windows, rolls, 0) && PassesUpTo(contracts, windows, rolls, 0)
  {}

  lemma UpToStep(contracts: seq<ContractResult>, windows: seq<WindowResult>, rolls: set<nat>, p: nat, m: nat)
    requires m == p + 1
    ensures GradesUpTo(contracts, windows, rolls, m) <==>
      GradesUpTo(contracts, windows, rolls, p) && GradePasses(contracts, windows, p, p in rolls)
    ensures PassesUpTo(contracts, windows, rolls, m) <==>
      PassesUpTo(contracts, windows, rolls, p) && ProductPasses(contracts, windows, p, p in rolls)
  {
    hide GradePasses, ProductPasses;
  }

  lemma LineIs(contracts: seq<ContractResult>, windows: seq<WindowResult>, rolls: set<nat>, p: nat, r: ProductResult)
    requires r.product == p && r.rows == TotalRows(OfProduct(contracts, p))
    requires IsWorst(contracts, windows, p, p in rolls, r.quality)
    requires SessionsExact(FirstFit(contracts, p, Current), r.missing, r.insufficient)
    ensures LineExact(contracts, windows, rolls, p, r)
  {}

  function ProductGrade(p: ProductResult): Quality { p.quality }

  // ---------------------------------------------------------------- what usable means on ticks

  ghost predicate SegmentUsable(rows: seq<Row>, date: string) { Classify(rows, Some(date)) == L5Usable }

  /** A session the audit accepts: usable ticks, at least the minimum of them, no empty stretch over five seconds. */
  ghost predicate SessionAccepted(rows: seq<Row>, date: string, span: Span) {
    var inside := Selected(rows, Session(span));
    SegmentUsable(inside, date) && |inside| >= MIN_SESSION_ROWS && Dense(Times(inside), span.start, span.end, SESSION_GAP)
  }

  ghost predicate ContractAccepted(c: Contract, rows: seq<Row>, date: string, sessions: seq<Span>) {
    SegmentUsable(Selected(rows, Everything), date)
      && (c.role == Current ==> forall span :: span in sessions ==> SessionAccepted(rows, date, span))
  }

  /** A window the audit accepts; it has ticks on both sides of its execution time. */
  ghost predicate WindowAccepted(rows: seq<Row>, date: string, w: ExecutionWindow) {
    var inside := Selected(rows, Around(w));
    && SegmentUsable(inside, date) && |inside| >= MIN_WINDOW_ROWS
    && (exists t :: t in Times(inside) && t < w.at) && (exists t :: t in Times(inside) && t >= w.at)
    && Dense(Times(inside), WindowStart(w), WindowEnd(w), SESSION_GAP)
  }

  lemma SelectedTimes(rows: seq<Row>, s: Selector, t: Time)
    requires t in Times(Selected(rows, s))
    ensures Selects(s, t)
  {
    var inside := Selected(rows, s);
    var i :| 0 <= i < |inside| && Times(inside)[i] == t;
    SelectedExact(rows, s, inside[i]);
  }

  lemma SessionSegmentUsable(rows: seq<Row>, date: string, span: Span)
    ensures SessionSegment(rows, date, span).quality == L5Usable <==> SessionAccepted(rows, date, span)
  {
    var inside := Selected(rows, Session(span));
    forall t | t in Times(inside) ensures span.start <= t <= span.end {
      SelectedTimes(rows, Session(span), t);
    }
    SessionUsableExact(Classify(inside, Some(date)), Times(inside), span, MIN_SESSION_ROWS);
    assert |Times(inside)| == |inside|;
  }

  lemma WindowOutcomeUsable(rows: seq<Row>, date: string, w: ExecutionWindow)
    ensures WindowOutcome(rows, date, w).quality == L5Usable <==> WindowAccepted(rows, date, w)
  {
    var inside := Selected(rows, Around(w));
    forall t | t in Times(inside) ensures WindowStart(w) <= t <= WindowEnd(w) {
      SelectedTimes(rows, Around(w), t);
    }
    WindowUsableExact(Classify(inside, Some(date)), Times(inside), w);
    assert |Times(inside)| == |inside|;
  }

  /** The contract verdict is perfect exactly when the stream and, for a current contract, all its full sessions are. */
  lemma ContractVerdictUsable(role: Role, all: Quality, segments: seq<Segment>)
    ensures ContractVerdict(role, all, segments) == L5Usable <==>
      all == L5Usable && (role == Current ==>
        (forall s :: s in segments ==> s.quality == L5Usable && !(0 < s.rows < MIN_SESSION_ROWS)))
  {
    var qs := GradesOf(segments, SegmentGrade);
    var few := if exists s :: s in segments && 0 < s.rows < MIN_SESSION_ROWS then [Degraded] else [];
    forall s | s in segments ensures s.quality in qs {
      var k :| 0 <= k < |segments| && segments[k] == s;
      assert qs[k] == s.quality;
    }
    assert few != [] ==> few[0] == Degraded && few[0] in few;
    AllConcat([all], qs);
    AllConcat([all] + qs, few);
    WorstOf([all]);
    WorstOf([all] + qs + few);
    assert [all][0] in [all];
  }

  /** A contract is usable exactly when its whole stream is and, for a current contract, every session is accepted. */
  lemma ContractUsableExact(c: Contract, rows: seq<Row>, date: string, sessions: seq<Span>)
    ensures ContractOutcome(c, rows, date, sessions).quality == L5Usable <==> ContractAccepted(c, rows, date, sessions)
  {
    hide SessionVerdict, Classify, Dense;
    var segments := SessionSegments(rows, date, sessions);
    ContractVerdictUsable(c.role, Classify(Selected(rows, Everything), Some(date)), segments);
    forall k | 0 <= k < |sessions|
      ensures segments[k] in segments && sessions[k] in sessions
      ensures segments[k].quality == L5Usable <==> SessionAccepted(rows, date, sessions[k])
      ensures segments[k].quality == L5Usable ==> segments[k].rows >= MIN_SESSION_ROWS
    {
      SessionSegmentUsable(rows, date, sessions[k]);
      assert segments[k] == SessionSegment(rows, date, sessions[k]);
    }
  }

  // ---------------------------------------------------------------- what a pass means

  ghost predicate IsFirstContract(d: Day, p: nat, role: Role, k: int) {
    0 <= k < |d.contracts| && Fits(d.contracts[k], p, role) && forall j :: 0 <= j < k ==> !Fits(d.contracts[j], p, role)
  }

  predicate OnSymbol(w: ExecutionWindow, p: nat, symbol: string) { w.product == p && w.symbol == symbol }

  /** Window `w` on contract `j`, which trades the symbol for the product. */
  ghost predicate IsPair(d: Day, p: nat, symbol: string, j: int, w: ExecutionWindow) {
    0 <= j < |d.contracts| && d.contracts[j].symbol == symbol && w in d.windows && OnSymbol(w, p, symbol)
  }

  /** The product has execution windows on the symbol, and the ticks of the symbol's contracts fill every one. */
  ghost predicate WindowsAccepted(d: Day, p: nat, symbol: string)
    requires Valid(d)
  {
    && (exists w :: w in d.windows && OnSymbol(w, p, symbol))
    && forall i, w :: IsPair(d, p, symbol, i, w) ==> WindowAccepted(d.queries[i], d.date, w)
  }

  ghost predicate RoleAccepted(d: Day, p: nat, role: Role)
    requires Valid(d)
  {
    exists k :: IsFirstContract(d, p, role, k) && WindowsAccepted(d, p, d.contracts[k].symbol)
  }

  ghost predicate ContractsAccepted(d: Day, p: nat)
    requires Valid(d)
  {
    forall i :: 0 <= i < |d.contracts| && d.contracts[i].product == p ==>
      ContractAccepted(d.contracts[i], d.queries[i], d.date, d.sessions)
  }

  /** What the ticks of one product must show. */
  ghost predicate ProductAccepted(d: Day, p: nat)
    requires Valid(d)
  {
    ContractsAccepted(d, p) && RoleAccepted(d, p, Current) && (p in d.rolls ==> RoleAccepted(d, p, Previous))
  }

  ghost predicate DayAccepted(d: Day)
    requires Valid(d)
  {
    forall p: nat :: p < |Book.PRODUCTS| ==> ProductAccepted(d, p)
  }

  lemma PairHasOutcome(d: Day, outcomes: seq<WindowResult>, p: nat, symbol: string, j: int, w: ExecutionWindow)
    requires Valid(d) && OutcomesExact(d, |d.contracts|, outcomes) && IsPair(d, p, symbol, j, w)
    ensures var o := WindowOutcome(d.queries[j], d.date, w);
      o in outcomes && Matches(o, p, symbol) && (o.quality == L5Usable <==> WindowAccepted(d.queries[j], d.date, w))
  {
    hide WindowAccepted, WindowVerdict;
    assert IsOutcome(d, |d.contracts|, WindowOutcome(d.queries[j], d.date, w), j, w);
    WindowOutcomeUsable(d.queries[j], d.date, w);
  }

  lemma OutcomeHasPair(d: Day, outcomes: seq<WindowResult>, p: nat, symbol: string, o: WindowResult)
    requires Valid(d) && OutcomesExact(d, |d.contracts|, outcomes) && o in outcomes && Matches(o, p, symbol)
    ensures exists j, w :: IsPair(d, p, symbol, j, w) && o == WindowOutcome(d.queries[j], d.date, w)
  {
    hide WindowVerdict;
    var j: nat, w :| IsOutcome(d, |d.contracts|, o, j, w);
    assert IsPair(d, p, symbol, j, w);
  }

  lemma WindowsUsableExact(d: Day, outcomes: seq<WindowResult>, p: nat, i: int)
    requires Valid(d) && OutcomesExact(d, |d.contracts|, outcomes) && 0 <= i < |d.contracts|
    ensures WindowsUsable(outcomes, p, d.contracts[i].symbol) <==> WindowsAccepted(d, p, d.contracts[i].symbol)
  {
    hide WindowAccepted, WindowOutcome, OutcomesExact;
    var symbol := d.contracts[i].symbol;
    forall j, w | IsPair(d, p, symbol, j, w)
      ensures var o := WindowOutcome(d.queries[j], d.date, w);
        o in outcomes && Matches(o, p, symbol) && (o.quality == L5Usable <==> WindowAccepted(d.queries[j], d.date, w))
    {
      PairHasOutcome(d, outcomes, p, symbol, j, w);
    }
    forall o | o in outcomes && Matches(o, p, symbol)
      ensures exists j, w :: IsPair(d, p, symbol, j, w) && o == WindowOutcome(d.queries[j], d.date, w)
    {
      OutcomeHasPair(d, outcomes, p, symbol, o);
    }
    assert forall w :: w in d.windows && OnSymbol(w, p, symbol) ==> IsPair(d, p, symbol, i, w);
  }

  lemma RoleUsableExact(d: Day, results: seq<ContractResult>, outcomes: seq<WindowResult>, p: nat, role: Role)
    requires Valid(d) && ContractsExact(d, |d.contracts|, results) && OutcomesExact(d, |d.contracts|, outcomes)
    ensures RoleUsable(results, outcomes, p, role) <==> RoleAccepted(d, p, role)
  {
    hide OutcomesExact, WindowsUsable, WindowsAccepted;
    forall k ensures IsFirst(results, p, role, k) <==> IsFirstContract(d, p, role, k) {}
    forall k | IsFirstContract(d, p, role, k)
      ensures WindowsUsable(outcomes, p, results[k].contract.symbol) <==> WindowsAccepted(d, p, d.contracts[k].symbol)
    {
      WindowsUsableExact(d, outcomes, p, k);
    }
  }

  lemma ContractsUsableExact(d: Day, results: seq<ContractResult>, p: nat)
    requires Valid(d) && ContractsExact(d, |d.contracts|, results)
    ensures (forall c :: c in results && c.contract.product == p ==> c.quality == L5Usable) <==> ContractsAccepted(d, p)
  {
    hide ContractAccepted;
    forall i | 0 <= i < |d.contracts|
      ensures results[i] in results
      ensures results[i].quality == L5Usable <==> ContractAccepted(d.contracts[i], d.queries[i], d.date, d.sessions)
    {
      ContractUsableExact(d.contracts[i], d.queries[i], d.date, d.sessions);
    }
  }

  lemma AcceptedSessions(rows: seq<Row>, date: string, sessions: seq<Span>)
    requires sessions != [] && forall span :: span in sessions ==> SessionAccepted(rows, date, span)
    ensures rows != [] && SessionsUsable(SessionSegments(rows, date, sessions))
  {
    hide Dense, Classify, SessionVerdict;
    var segments := SessionSegments(rows, date, sessions);
    forall s | s in segments ensures s.rows > 0 && s.quality == L5Usable {
      var i :| 0 <= i < |segments| && segments[i] == s;
      SessionSegmentUsable(rows, date, sessions[i]);
      assert sessions[i] in sessions;
    }
    var inside := Selected(rows, Session(sessions[0]));
    assert SessionAccepted(rows, date, sessions[0]);
    SelectedExact(rows, Session(sessions[0]), inside[0]);
  }

  /** An accepted current contract has ticks, and usable ticks in every session: the remaining blockers never fire alone. */
  lemma AcceptedLeavesNoBlocker(d: Day, results: seq<ContractResult>, k: int)
    requires Valid(d) && ContractsExact(d, |d.contracts|, results) && 0 <= k < |results|
    requires results[k].contract.role == Current && results[k].quality == L5Usable
    ensures results[k].rows > 0 && SessionsUsable(results[k].sessions)
  {
    hide SessionsUsable, SessionAccepted, SessionSegments, Classify, ContractVerdict;
    ContractUsableExact(d.contracts[k], d.queries[k], d.date, d.sessions);
    AcceptedSessions(d.queries[k], d.date, d.sessions);
  }

  lemma ProductPassesExact(d: Day, results: seq<ContractResult>, outcomes: seq<WindowResult>, p: nat)
    requires Valid(d) && ContractsExact(d, |d.contracts|, results) && OutcomesExact(d, |d.contracts|, outcomes)
    ensures GradePasses(results, outcomes, p, p in d.rolls) <==> ProductAccepted(d, p)
    ensures ProductPasses(results, outcomes, p, p in d.rolls) <==> ProductAccepted(d, p)
  {
    hide OutcomesExact, WindowsUsable, WindowsAccepted, ContractOutcome, ContractsAccepted, SessionsUsable;
    ContractsUsableExact(d, results, p);
    RoleUsableExact(d, results, outcomes, p, Current);
    RoleUsableExact(d, results, outcomes, p, Previous);
    forall k | IsFirst(results, p, Current, k) && results[k].quality == L5Usable
      ensures results[k] in results && results[k].rows > 0 && SessionsUsable(results[k].sessions)
    {
      AcceptedLeavesNoBlocker(d, results, k);
    }
  }

  lemma AllProductsExact(d: Day, results: seq<ContractResult>, outcomes: seq<WindowResult>)
    requires Valid(d) && ContractsExact(d, |d.contracts|, results) && OutcomesExact(d, |d.contracts|, outcomes)
    ensures var n := |Book.PRODUCTS|;
      && (GradesUpTo(results, outcomes, d.rolls, n) <==> DayAccepted(d))
      && (PassesUpTo(results, outcomes, d.rolls, n) <==> DayAccepted(d))
  {
    hide GradePasses, ProductPasses, ProductAccepted, OutcomesExact, ContractsExact;
    forall p: nat
      ensures GradePasses(results, outcomes, p, p in d.rolls) <==> ProductAccepted(d, p)
      ensures ProductPasses(results, outcomes, p, p in d.rolls) <==> ProductAccepted(d, p)
    {
      ProductPassesExact(d, results, outcomes, p);
    }
  }

  lemma SessionsPerContract(d: Day, results: seq<ContractResult>)
    requires Valid(d) && ContractsExact(d, |d.contracts|, results)
    ensures forall c :: c in results ==> |c.sessions| == |SESSIONS|
  {}

  lemma OverallExact(products: seq<ProductResult>)
    requires products != []
    ensures Worst(GradesOf(products, ProductGrade)) == L5Usable <==> AllBest(products)
  {
    var qs := GradesOf(products, ProductGrade);
    WorstExact(qs);
    forall p | 0 <= p < |products| ensures qs[p] in qs {}
  }

  /** The day's audit passes exactly when the ticks of all ten products are accepted; the blockers never decide it. */
  method Audit(d: Day) returns (r: AuditOutcome<Verdict>)
    requires Valid(d)
    ensures r.Audited? <==> forall i :: 0 <= i < |d.queries| ==> |d.queries[i]| <= MAX_ROWS
    ensures r.Audited? ==> (r.value.pass <==> r.value.overall == L5Usable) && (r.value.pass ==> r.value.blockers == [])
    ensures r.Audited? ==> (r.value.pass <==> DayAccepted(d))
  {
    hide DayAccepted, GradesUpTo, PassesUpTo, ContractsExact, OutcomesExact, LineExact, BlockersExact, AllBest;
    var read := AuditContracts(d);
    if read.AuditError? {
      return AuditError(read.message);
    }
    var results, outcomes := read.value.0, read.value.1;
    SessionsPerContract(d, results);
    var products, blockers := SummarizeProducts(results, outcomes, d.rolls);
    AllProductsExact(d, results, outcomes);
    OverallExact(products);
    var qs := GradesOf(products, ProductGrade);
    return Audited(Verdict(products, blockers, Worst(qs), Worst(qs) == L5Usable && blockers == []));
  }

  /**
   What a pass guarantees about the ticks: the product has a current contract whose ticks are well identified, have
   complete books, few flaws and consistent volumes in the counted shares, and leave no stretch over five seconds empty in any session, and an execution window just as dense with at least
   eleven ticks, before and after its execution time.
   */
  lemma PassMeansDenseTicks(d: Day, p: nat)
    requires Valid(d) && DayAccepted(d) && p < |Book.PRODUCTS|
    ensures exists k, w ::
      && IsFirstContract(d, p, Current, k) && w in d.windows && OnSymbol(w, p, d.contracts[k].symbol)
      && WellIdentified(Selected(d.queries[k], Everything), d.date)
      && SharesWithinLimits(Selected(d.queries[k], Everything), Some(d.date))
      && (forall span :: span in d.sessions ==>
            Dense(Times(Selected(d.queries[k], Session(span))), span.start, span.end, SESSION_GAP))
      && WindowAccepted(d.queries[k], d.date, w)
  {
    hide Classify, SharesWithinLimits, WellIdentified, Dense;
    assert ProductAccepted(d, p);
    var k :| IsFirstContract(d, p, Current, k) && WindowsAccepted(d, p, d.contracts[k].symbol);
    var w :| w in d.windows && OnSymbol(w, p, d.contracts[k].symbol);
    var rows := d.queries[k];
    assert ContractAccepted(d.contracts[k], rows, d.date, d.sessions);
    UsableMeansIdentified(Selected(rows, Everything), d.date);
    UsableShares(Selected(rows, Everything), Some(d.date));
    forall span | span in d.sessions
      ensures Dense(Times(Selected(rows, Session(span))), span.start, span.end, SESSION_GAP)
    {
      assert SessionAccepted(rows, d.date, span);
    }
    assert WindowAccepted(rows, d.date, w);
  }
}
