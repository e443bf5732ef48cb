/** The product summary, the day's P0 verdict, and what a pass says about the ticks. */
module AuditVerdict {
  import opened Optional
  import opened TickRows
  import opened TickQuality
  import opened Coverage
  import opened TickAudit

  datatype Blocker =
    | MissingCurrentWindow
    | MissingPreviousContract
    | MissingPreviousWindow
    | MissingSessions(names: seq<nat>)
    | SessionNotL5(names: seq<nat>)
    | NoRows

  /** Sessions are named by their place among the four required ones. */
  datatype ProductResult = ProductResult(product: nat, rows: nat, missing: seq<nat>, insufficient: seq<nat>, quality: Quality)

  function Filter<T>(s: seq<T>, f: T -> bool): seq<T> {
    if s == [] then [] else (if f(s[0]) then [s[0]] else []) + Filter(s[1..], f)
  }

  lemma {:induction false} FilterExact<T>(s: seq<T>, f: T -> bool, x: T)
    ensures x in Filter(s, f) <==> x in s && f(x)
  {
    if s != [] {
      FilterExact(s[1..], f, x);
      assert s == [s[0]] + s[1..];
    }
  }

  function OfProduct(contracts: seq<ContractResult>, p: nat): seq<ContractResult> {
    Filter(contracts, (c: ContractResult) => c.contract.product == p)
  }

  predicate Fits(c: Contract, p: nat, role: Role) { c.product == p && c.role == role }

  /** Entry `k` is the product's first contract in the role. */
  ghost predicate IsFirst(contracts: seq<ContractResult>, p: nat, role: Role, k: int) {
    0 <= k < |contracts| && Fits(contracts[k].contract, p, role) && forall j :: 0 <= j < k ==> !Fits(contracts[j].contract, p, role)
  }

  function FirstFit(contracts: seq<ContractResult>, p: nat, role: Role): Option<ContractResult> {
    if contracts == [] then None
    else if Fits(contracts[0].contract, p, role) then Some(contracts[0]) else FirstFit(contracts[1..], p, role)
  }

  lemma {:induction false} FirstFitExact(contracts: seq<ContractResult>, p: nat, role: Role)
    ensures var first := FirstFit(contracts, p, role);
      if first.None? then forall c :: c in contracts ==> !Fits(c.contract, p, role)
      else first.value in contracts && exists k :: IsFirst(contracts, p, role, k) && first.value == contracts[k]
  {
    if contracts != [] {
      var rest := contracts[1..];
      FirstFitExact(rest, p, role);
      assert contracts == [contracts[0]] + rest;
      if Fits(contracts[0].contract, p, role) {
        assert IsFirst(contracts, p, role, 0);
      } else if FirstFit(rest, p, role).Some? {
        var k :| IsFirst(rest, p, role, k) && FirstFit(rest, p, role).value == rest[k];
        assert forall j :: 0 < j < k + 1 ==> contracts[j] == rest[j - 1];
        assert IsFirst(contracts, p, role, k + 1);
      }
    }
  }

  /** The first contract found is the one in the first place that fits. */
  lemma FirstFitIs(contracts: seq<ContractResult>, p: nat, role: Role, k: int)
    requires IsFirst(contracts, p, role, k)
    ensures FirstFit(contracts, p, role) == Some(contracts[k])
  {
    FirstFitExact(contracts, p, role);
    assert contracts[k] in contracts;
  }

  predicate Matches(w: WindowResult, p: nat, symbol: string) { w.product == p && w.symbol == symbol }

  /** The product has windows on the symbol and every one is usable. */
  ghost predicate WindowsUsable(windows: seq<WindowResult>, p: nat, symbol: string) {
    && (exists w :: w in windows && Matches(w, p, symbol))
    && forall w :: w in windows && Matches(w, p, symbol) ==> w.quality == L5Usable
  }

  ghost predicate RoleUsable(contracts: seq<ContractResult>, windows: seq<WindowResult>, p: nat, role: Role) {
    exists k :: IsFirst(contracts, p, role, k) && WindowsUsable(windows, p, contracts[k].contract.symbol)
  }

  predicate SessionsUsable(sessions: seq<Segment>) { forall s :: s in sessions ==> s.rows > 0 && s.quality == L5Usable }

  /** What gives a product the best grade. */
  ghost predicate GradePasses(contracts: seq<ContractResult>, windows: seq<WindowResult>, p: nat, roll: bool) {
    && (forall c :: c in contracts && c.contract.product == p ==> c.quality == L5Usable)
    && RoleUsable(contracts, windows, p, Current)
    && (roll ==> RoleUsable(contracts, windows, p, Previous))
    && (forall k :: IsFirst(contracts, p, Current, k) ==> SessionsUsable(contracts[k].sessions))
  }

  /** What leaves a product neither degraded nor blocked. */
  ghost predicate ProductPasses(contracts: seq<ContractResult>, windows: seq<WindowResult>, p: nat, roll: bool) {
    && GradePasses(contracts, windows, p, roll)
    && (exists c :: c in contracts && c.contract.product == p && c.rows > 0)
  }

  function ContractGrade(c: ContractResult): Quality { c.quality }

  function WindowGrade(w: WindowResult): Quality { w.quality }

  function TotalRows(contracts: seq<ContractResult>): nat {
    if contracts == [] then 0 else contracts[0].rows + TotalRows(contracts[1..])
  }

  lemma {:induction false} TotalRowsPositive(contracts: seq<ContractResult>)
    ensures TotalRows(contracts) > 0 <==> exists c :: c in contracts && c.rows > 0
  {
    if contracts != [] {
      TotalRowsPositive(contracts[1..]);
      assert contracts == [contracts[0]] + contracts[1..];
    }
  }

  predicate AllUsable(qs: seq<Quality>) { forall q :: q in qs ==> q == L5Usable }

  ghost predicate HasWindow(contracts: seq<ContractResult>, windows: seq<WindowResult>, p: nat, role: Role) {
    exists k :: IsFirst(contracts, p, role, k) && exists w :: w in windows && Matches(w, p, contracts[k].contract.symbol)
  }

  function Shortfall(role: Role, found: bool): Blocker {
    if role == Current then MissingCurrentWindow else if found then MissingPreviousWindow else MissingPreviousContract
  }

  function WindowsOn(windows: seq<WindowResult>, p: nat, symbol: string): (own: seq<WindowResult>) {
    Filter(windows, (w: WindowResult) => Matches(w, p, symbol))
  }

  /** What a role adds to the grades: those of its windows, or one for having none. */
  ghost predicate RoleGrade(contracts: seq<ContractResult>, windows: seq<WindowResult>, p: nat, role: Role, q: Quality) {
    if HasWindow(contracts, windows, p, role) then
      exists k, w ::
        && IsFirst(contracts, p, role, k)
        && w in windows && Matches(w, p, contracts[k].contract.symbol) && w.quality == q
    else q == (if role == Previous && FirstFit(contracts, p, role).None? then Unusable else Degraded)
  }

  /** What the current contract's sessions add: the worst grade for an empty one, a lesser one for one not usable. */
  ghost predicate SessionGrade(current: Option<ContractResult>, q: Quality) {
    && current.Some?
    && exists s :: s in current.value.sessions && q == (if s.rows == 0 then Unusable else Degraded) && !(s.rows > 0 && s.quality == L5Usable)
  }

  /** Everything that counts toward a product's grade. */
  ghost predicate Contributes(contracts: seq<ContractResult>, windows: seq<WindowResult>, p: nat, roll: bool, q: Quality) {
    || (exists c :: c in contracts && c.contract.product == p && c.quality == q)
    || RoleGrade(contracts, windows, p, Current, q)
    || (roll && RoleGrade(contracts, windows, p, Previous, q))
    || SessionGrade(FirstFit(contracts, p, Current), q)
  }

  ghost predicate IsWorst(contracts: seq<ContractResult>, windows: seq<WindowResult>, p: nat, roll: bool, q: Quality) {
    && Contributes(contracts, windows, p, roll, q)
    && forall x :: Contributes(contracts, windows, p, roll, x) ==> Severity(x) <= Severity(q)
  }

  lemma GradesOfWindows(windows: seq<WindowResult>, p: nat, symbol: string)
    ensures var own := WindowsOn(windows, p, symbol);
      && (own == [] <==> !exists w :: w in windows && Matches(w, p, symbol))
      && (own != [] && AllUsable(GradesOf(own, WindowGrade)) <==> WindowsUsable(windows, p, symbol))
      && (forall q :: q in GradesOf(own, WindowGrade) <==> exists w :: w in windows && Matches(w, p, symbol) && w.quality == q)
  {
    var f := (w: WindowResult) => Matches(w, p, symbol);
    var own := Filter(windows, f);
    assert own == WindowsOn(windows, p, symbol);
    forall w ensures w in own <==> w in windows && Matches(w, p, symbol) {
      FilterExact(windows, f, w);
    }
    assert own != [] ==> own[0] in own;
    var qs := GradesOf(own, WindowGrade);
    forall w | w in own ensures w.quality in qs {
      var i :| 0 <= i < |own| && own[i] == w;
      assert qs[i] == w.quality;
    }
  }

  /** The role's questions, asked of the contract found first. */
  lemma RoleFacts(contracts: seq<ContractResult>, windows: seq<WindowResult>, p: nat, role: Role)
    ensures var c := FirstFit(contracts, p, role);
      && (HasWindow(contracts, windows, p, role) <==>
            c.Some? && exists w :: w in windows && Matches(w, p, c.value.contract.symbol))
      && (RoleUsable(contracts, windows, p, role) <==> c.Some? && WindowsUsable(windows, p, c.value.contract.symbol))
      && (HasWindow(contracts, windows, p, role) ==> forall q ::
            RoleGrade(contracts, windows, p, role, q) <==>
              exists w :: w in windows && Matches(w, p, c.value.contract.symbol) && w.quality == q)
  {
    FirstFitExact(contracts, p, role);
    forall k | IsFirst(contracts, p, role, k) ensures FirstFit(contracts, p, role) == Some(contracts[k]) {
      FirstFitIs(contracts, p, role, k);
    }
  }

  /** The grades of the windows on the first contract of a role, or the shortfall when there are none. */
  method GradeRole(contracts: seq<ContractResult>, windows: seq<WindowResult>, p: nat, role: Role)
    returns (contract: Option<ContractResult>, qs: seq<Quality>, blockers: seq<Blocker>)
    ensures contract == FirstFit(contracts, p, role)
    ensures AllUsable(qs) <==> RoleUsable(contracts, windows, p, role)
    ensures blockers == RoleBlockers(contracts, windows, p, role)
    ensures qs != [] && (AllUsable(qs) ==> blockers == [])
    ensures forall q :: q in qs <==> RoleGrade(contracts, windows, p, role, q)
  {
    contract := FirstFit(contracts, p, role);
    hide FirstFit, IsFirst, Matches, RoleUsable, WindowsUsable, HasWindow, WindowsOn;
    var own := [];
    if contract.Some? {
      own := WindowsOn(windows, p, contract.value.contract.symbol);
      GradesOfWindows(windows, p, contract.value.contract.symbol);
    }
    RoleFacts(contracts, windows, p, role);
    if own == [] {
      qs, blockers := [if role == Previous && contract.None? then Unusable else Degraded], [Shortfall(role, contract.Some?)];
      assert qs[0] in qs;
    } else {
      qs, blockers := GradesOf(own, WindowGrade), [];
    }
  }

  /** Which required sessions have no tick, and which have some without being usable. */
  method GradeSessions(sessions: seq<Segment>) returns (missing: seq<nat>, insufficient: seq<nat>)
    requires |sessions| == |SESSIONS|
    ensures forall k :: k in missing <==> 0 <= k < |sessions| && sessions[k].rows == 0
    ensures forall k :: k in insufficient <==> 0 <= k < |sessions| && sessions[k].rows > 0 && sessions[k].quality != L5Usable
    ensures missing == [] && insufficient == [] <==> SessionsUsable(sessions)
    ensures missing != [] <==> exists s :: s in sessions && s.rows == 0
    ensures insufficient != [] <==> exists s :: s in sessions && s.rows > 0 && s.quality != L5Usable
  {
    missing, insufficient := [], [];
    for k := 0 to |SESSIONS|
      invariant forall i :: i in missing <==> 0 <= i < k && sessions[i].rows == 0
      invariant forall i :: i in insufficient <==> 0 <= i < k && sessions[i].rows > 0 && sessions[i].quality != L5Usable
    {
      if sessions[k].rows == 0 {
        missing := missing + [k];
      } else if sessions[k].quality != L5Usable {
        insufficient := insufficient + [k];
      }
    }
    forall s | s in sessions ensures (s.rows > 0 || missing != []) && (s.rows == 0 || s.quality == L5Usable || insufficient != []) {
      var k: nat :| k < |sessions| && sessions[k] == s;
      assert k in missing || k in insufficient || (s.rows > 0 && s.quality == L5Usable);
    }
    if missing != [] {
      assert missing[0] in missing;
      assert sessions[missing[0]] in sessions;
    }
    if insufficient != [] {
      assert insufficient[0] in insufficient;
      assert sessions[insufficient[0]] in sessions;
    }
  }

  lemma AllConcat(a: seq<Quality>, b: seq<Quality>)
    ensures AllUsable(a + b) <==> AllUsable(a) && AllUsable(b)
  {
    forall q ensures q in a + b <==> q in a || q in b {}
  }

  lemma GradesTogether(a: seq<Quality>, b: seq<Quality>, c: seq<Quality>, d: seq<Quality>)
    ensures AllUsable([])
    ensures AllUsable(a + b + c + d) <==> AllUsable(a) && AllUsable(b) && AllUsable(c) && AllUsable(d)
    ensures forall q :: q in a + b + c + d <==> q in a || q in b || q in c || q in d
  {
    AllConcat(a, b);
    AllConcat(a + b, c);
    AllConcat(a + b + c, d);
  }

  lemma GradesOfContracts(contracts: seq<ContractResult>, p: nat)
    ensures AllUsable(GradesOf(OfProduct(contracts, p), ContractGrade)) <==>
      forall c :: c in contracts && c.contract.product == p ==> c.quality == L5Usable
    ensures forall q :: q in GradesOf(OfProduct(contracts, p), ContractGrade) <==>
      exists c :: c in contracts && c.contract.product == p && c.quality == q
    ensures TotalRows(OfProduct(contracts, p)) > 0 <==> exists c :: c in contracts && c.contract.product == p && c.rows > 0
  {
    var f := (c: ContractResult) => c.contract.product == p;
    var own := Filter(contracts, f);
    assert own == OfProduct(contracts, p);
    forall c ensures c in own <==> c in contracts && c.contract.product == p {
      FilterExact(contracts, f, c);
    }
    TotalRowsPositive(own);
    var qs := GradesOf(own, ContractGrade);
    forall c | c in own ensures c.quality in qs {
      var i :| 0 <= i < |own| && own[i] == c;
      assert qs[i] == c.quality;
    }
  }

  ghost function RoleBlockers(contracts: seq<ContractResult>, windows: seq<WindowResult>, p: nat, role: Role): seq<Blocker> {
    if HasWindow(contracts, windows, p, role) then [] else [Shortfall(role, FirstFit(contracts, p, role).Some?)]
  }

  /** A role without a window of its first contract draws one blocker, which says whether there is a contract at all. */
  lemma RoleBlockersExact(contracts: seq<ContractResult>, windows: seq<WindowResult>, p: nat)
    ensures RoleBlockers(contracts, windows, p, Current)
         == if HasWindow(contracts, windows, p, Current) then [] else [MissingCurrentWindow]
    ensures RoleBlockers(contracts, windows, p, Previous)
         == if HasWindow(contracts, windows, p, Previous) then []
            else if exists c :: c in contracts && c.contract.product == p && c.contract.role == Previous then [MissingPreviousWindow]
            else [MissingPreviousContract]
  {
    hide HasWindow;
    FirstFitExact(contracts, p, Previous);
  }

  /** The rows of a list of contracts add up. */
  lemma {:induction false} TotalRowsAdds(a: seq<ContractResult>, c: ContractResult)
    ensures TotalRows([]) == 0 && TotalRows(a + [c]) == TotalRows(a) + c.rows
  {
    if a != [] {
      TotalRowsAdds(a[1..], c);
      assert (a + [c])[1..] == a[1..] + [c];
    } else {
      assert a + [c] == [c];
    }
  }

  function SessionBlockers(missing: seq<nat>, insufficient: seq<nat>): seq<Blocker> {
    (if missing == [] then [] else [MissingSessions(missing)]) + (if insufficient == [] then [] else [SessionNotL5(insufficient)])
  }

  /** The missing sessions have no tick, the insufficient ones have some and are not usable; without a contract there are none. */
  ghost predicate SessionsExact(current: Option<ContractResult>, missing: seq<nat>, insufficient: seq<nat>) {
    && (forall k :: k in missing <==>
          current.Some? && 0 <= k < |current.value.sessions| && current.value.sessions[k].rows == 0)
    && (forall k :: k in insufficient <==>
          && current.Some? && 0 <= k < |current.value.sessions|
          && current.value.sessions[k].rows > 0 && current.value.sessions[k].quality != L5Usable)
  }

  /** The session shortfalls of the current contract. */
  method GradeCurrentSessions(current: Option<ContractResult>)
    returns (missing: seq<nat>, insufficient: seq<nat>, qs: seq<Quality>, blockers: seq<Blocker>)
    requires current.Some? ==> |current.value.sessions| == |SESSIONS|
    ensures AllUsable(qs) <==> (current.Some? ==> SessionsUsable(current.value.sessions))
    ensures blockers == SessionBlockers(missing, insufficient)
    ensures forall q :: q in qs <==> SessionGrade(current, q)
    ensures blockers == [] <==> AllUsable(qs)
    ensures SessionsExact(current, missing, insufficient)
  {
    missing, insufficient := [], [];
    if current.Some? {
      missing, insufficient := GradeSessions(current.value.sessions);
    }
    qs := (if missing == [] then [] else [Unusable]) + (if insufficient == [] then [] else [Degraded]);
    blockers := SessionBlockers(missing, insufficient);
    assert missing != [] ==> qs[0] == Unusable && qs[0] in qs;
    assert insufficient != [] ==> qs[|qs| - 1] == Degraded && qs[|qs| - 1] in qs;
  }

  lemma WorstOf(qs: seq<Quality>)
    ensures Worst(qs) == L5Usable <==> qs != [] && AllUsable(qs)
    ensures forall q :: q in qs ==> Severity(q) <= Severity(Worst(qs))
    ensures qs != [] ==> Worst(qs) in qs
  {
    WorstExact(qs);
  }

  lemma PassesExact(contracts: seq<ContractResult>, windows: seq<WindowResult>, p: nat, roll: bool)
    ensures var own := OfProduct(contracts, p);
      var current := FirstFit(contracts, p, Current);
      GradePasses(contracts, windows, p, roll) <==>
        && AllUsable(GradesOf(own, ContractGrade)) && RoleUsable(contracts, windows, p, Current)
        && (roll ==> RoleUsable(contracts, windows, p, Previous))
        && (current.Some? ==> SessionsUsable(current.value.sessions))
    ensures ProductPasses(contracts, windows, p, roll) <==>
      GradePasses(contracts, windows, p, roll) && TotalRows(OfProduct(contracts, p)) > 0
  {
    GradesOfContracts(contracts, p);
    FirstFitExact(contracts, p, Current);
  }

  /** Every shortfall of the product, in order. */
  ghost function ProductBlockers(
      contracts: seq<ContractResult>, windows: seq<WindowResult>, p: nat, roll: bool, result: ProductResult): seq<Blocker> {
    RoleBlockers(contracts, windows, p, Current)
    + (if roll then RoleBlockers(contracts, windows, p, Previous) else [])
    + SessionBlockers(result.missing, result.insufficient)
    + (if result.rows == 0 then [NoRows] else [])
  }

  /** One product's grade and what blocks it. */
  method SummarizeProduct(contracts: seq<ContractResult>, windows: seq<WindowResult>, p: nat, roll: bool)
    returns (result: ProductResult, blockers: seq<Blocker>)
    requires forall c :: c in contracts ==> |c.sessions| == |SESSIONS|
    ensures result.product == p && result.rows == TotalRows(OfProduct(contracts, p))
    ensures result.quality == L5Usable <==> GradePasses(contracts, windows, p, roll)
    ensures result.quality == L5Usable && blockers == [] <==> ProductPasses(contracts, windows, p, roll)
    ensures IsWorst(contracts, windows, p, roll, result.quality)
    ensures blockers == ProductBlockers(contracts, windows, p, roll, result)
    ensures SessionsExact(FirstFit(contracts, p, Current), result.missing, result.insufficient)
  {
    hide GradePasses, ProductPasses, RoleUsable, RoleBlockers, RoleGrade, SessionGrade, SessionsExact, HasWindow, SessionsUsable,
      AllUsable, FirstFit, IsFirst, OfProduct, Worst, TotalRows, GradesOf;
    var own := OfProduct(contracts, p);
    PassesExact(contracts, windows, p, roll);
    GradesOfContracts(contracts, p);
    var current, currentQs, currentBlockers := GradeRole(contracts, windows, p, Current);
    var previousQs, previousBlockers := [], [];
    if roll {
      var previous;
      previous, previousQs, previousBlockers := GradeRole(contracts, windows, p, Previous);
    }
    FirstFitExact(contracts, p, Current);
    var missing, insufficient, sessionQs, sessionBlockers := GradeCurrentSessions(current);
    var qs := GradesOf(own, ContractGrade) + currentQs + previousQs + sessionQs;
    GradesTogether(GradesOf(own, ContractGrade), currentQs, previousQs, sessionQs);
    var rows := TotalRows(own);
    blockers := currentBlockers + previousBlockers + sessionBlockers + (if rows == 0 then [NoRows] else []);
    qs := if qs == [] then [Unusable] else qs;
    WorstOf(qs);
    result := ProductResult(p, rows, missing, insufficient, Worst(qs));
  }
}
