/**
 The frozen source view: header, source bindings and the ten products. What a view must satisfy, its normal
 form, and the pass that checks the one and builds the other.
 */
module SourceView {
  import opened Optional
  import opened Clock
  import opened Identifiers
  import opened Sorting
  import opened RealMath
  import opened SourceHistory
  import Book

  const SCHEMA := "commodity_c_fast_pit_frozen_source_view_v1"
  const PURPOSE := "UNVERIFIED_PIT_TYPED_VIEW_INPUT_ONLY"
  const STATUS := "UNVERIFIED_PIT_TYPED_VIEW"

  datatype Header = Header(
    schema: string, purpose: string, status: string, id: string, receipt: string,
    generatedAt: Time, cutoffAt: Time, research: Date, execution: Date, days: seq<Date>)

  datatype Reference = Reference(binding: string, contract: string, open: real, observedAt: Time, raw: string)

  datatype Spec = Spec(binding: string, contract: string, lastTradingDay: Date, multiplier: int, tick: real, raw: string)

  datatype Product = Product(name: string, exchange: string, daily: seq<Daily>, reference: Reference, spec: Spec)

  datatype View = View(header: Header, bindings: seq<Binding>, products: seq<Product>)

  /** What is frozen about a product. */
  datatype Frozen = Frozen(exchange: string, multiplier: int, tick: real)

  const FROZEN: map<string, Frozen> := map[
    "ag" := Frozen(SHFE, 15, 1.0), "al" := Frozen(SHFE, 5, 5.0), "au" := Frozen(SHFE, 1000, 0.02),
    "bu" := Frozen(SHFE, 10, 1.0), "cu" := Frozen(SHFE, 5, 10.0), "rb" := Frozen(SHFE, 10, 1.0),
    "ru" := Frozen(SHFE, 10, 5.0), "sc" := Frozen(INE, 1000, 0.1), "sp" := Frozen(SHFE, 10, 2.0),
    "zn" := Frozen(SHFE, 5, 5.0)]

  function FrozenOf(name: string): Option<Frozen> { if name in FROZEN then Some(FROZEN[name]) else None }

  const MINIMUM_DAYS: nat := 129
  const MINIMUM_HISTORY: nat := 127
  const NIGHT_OPENS := 20 * 3600

  // ---------------------------------------------------------------- the header

  function Position(days: seq<Date>, d: Date): (i: nat)
    requires d in days
    ensures i < |days| && days[i] == d
  {
    if days[0] == d then 0 else Position(days[1..], d) + 1
  }

  predicate Ascending(days: seq<Date>) { forall i :: 0 < i < |days| ==> days[i - 1] < days[i] }

  /** On the execution day by the China clock, or on the evening of the official day before it. */
  predicate BelongsTo(t: Time, execution: Date, days: seq<Date>) {
    var local := CivilDate(LocalDate(t));
    || local == execution
    || (execution in days && LocalSecond(t) >= NIGHT_OPENS
        && Position(days, execution) > 0 && local == days[Position(days, execution) - 1])
  }

  /** Both days are on the calendar, the execution day later with a day after it. */
  predicate DaysPlaced(h: Header) {
    && h.research in h.days && h.execution in h.days
    && Position(h.days, h.research) < Position(h.days, h.execution)
    && Position(h.days, h.execution) + 1 < |h.days|
  }

  function History(h: Header): seq<Date>
    requires DaysPlaced(h)
  {
    h.days[..Position(h.days, h.research) + 1]
  }

  function DayAfter(h: Header): Date
    requires DaysPlaced(h)
  {
    h.days[Position(h.days, h.execution) + 1]
  }

  predicate HeaderValid(h: Header) {
    && h.schema == SCHEMA && h.purpose == PURPOSE && h.status == STATUS
    && IsStableId(h.id) && IsSha256(h.receipt)
    && h.cutoffAt <= h.generatedAt
    && h.research < h.execution && YearMonth(h.research) != YearMonth(h.execution)
    && |h.days| >= MINIMUM_DAYS && Ascending(h.days)
    && DaysPlaced(h)
    && BelongsTo(h.generatedAt, h.execution, h.days)
    && |History(h)| >= MINIMUM_HISTORY
  }

  lemma PlacedDays(h: Header)
    requires HeaderValid(h)
    ensures DaysPlaced(h)
  {}

  // ---------------------------------------------------------------- the bindings

  function IdOf(b: Binding): string { b.id }

  function RoleOf(b: Binding): (string, string) { (b.cls, b.scope) }

  predicate BindingValid(b: Binding, generatedAt: Time) {
    && IsStableId(b.id)
    && b.cls in [MARKET_DAILY, CALENDAR, REFERENCE_OPEN, CONTRACT_SPEC] && b.scope in [SHFE, INE, BOTH]
    && (b.cls == CALENDAR <==> b.scope == BOTH)
    && IsStableId(b.identity)
    && b.queryStart <= b.queryEnd
    && b.cutoffAt <= b.generatedAt <= generatedAt
    && IsSha256(b.raw) && IsSha256(b.lineage) && IsSha256(b.receipt)
  }

  predicate Timely(h: Header, b: Binding) { b.cutoffAt <= h.cutoffAt && b.generatedAt <= h.cutoffAt }

  predicate CalendarCovers(h: Header, b: Binding)
    requires DaysPlaced(h)
  {
    b.queryStart <= History(h)[0] && DayAfter(h) <= b.queryEnd
  }

  ghost predicate EachValid(h: Header, bindings: seq<Binding>) {
    forall b :: b in bindings ==> BindingValid(b, h.generatedAt)
  }

  ghost predicate EachTimely(h: Header, bindings: seq<Binding>) { forall b :: b in bindings ==> Timely(h, b) }

  /** Valid bindings, no id and no role twice, with a calendar that covers history and execution. */
  ghost predicate BindingsValid(h: Header, bindings: seq<Binding>)
    requires DaysPlaced(h)
  {
    && EachValid(h, bindings) && EachTimely(h, bindings)
    && DistinctBy(bindings, IdOf) && DistinctBy(bindings, RoleOf)
    && exists b :: b in bindings && b.cls == CALENDAR && CalendarCovers(h, b)
  }

  /** The bindings by id; a later one replaces an earlier one. */
  function Index(bindings: seq<Binding>): map<string, Binding> {
    if bindings == [] then map[]
    else
      var n := |bindings| - 1;
      Index(bindings[..n])[bindings[n].id := bindings[n]]
  }

  lemma {:induction false} IndexKeys(bindings: seq<Binding>)
    ensures Index(bindings).Keys == Keys(bindings, IdOf)
  {
    if bindings != [] {
      var n := |bindings| - 1;
      IndexKeys(bindings[..n]);
      assert bindings == bindings[..n] + [bindings[n]];
      KeysAppend(bindings[..n], bindings[n], IdOf);
    }
  }

  lemma {:induction false} IndexExact(bindings: seq<Binding>)
    requires DistinctBy(bindings, IdOf)
    ensures forall id :: id in Index(bindings) ==> Index(bindings)[id] in bindings && Index(bindings)[id].id == id
    ensures forall b :: b in bindings ==> b.id in Index(bindings) && Index(bindings)[b.id] == b
  {
    if bindings != [] {
      var n := |bindings| - 1;
      IndexExact(bindings[..n]);
      assert bindings == bindings[..n] + [bindings[n]];
      KeysAppend(bindings[..n], bindings[n], IdOf);
      forall b | b in bindings ensures b.id in Index(bindings) && Index(bindings)[b.id] == b {
        assert b in bindings[..n] ==> IdOf(b) in Keys(bindings[..n], IdOf);
      }
    }
  }

  lemma IndexPermutes(a: seq<Binding>, b: seq<Binding>)
    requires multiset(a) == multiset(b) && DistinctBy(a, IdOf)
    ensures Index(a) == Index(b)
  {
    SameElements(a, b);
    DistinctPermutes(a, b, IdOf);
    IndexExact(a);
    IndexExact(b);
    IndexKeys(a);
    IndexKeys(b);
    assert Keys(a, IdOf) == Keys(b, IdOf);
    forall id | id in Index(a) ensures Index(a)[id] == Index(b)[id] {
      assert Index(a)[id] in b;
    }
  }

  function Calendars(bindings: seq<Binding>): seq<Binding> {
    if bindings == [] then []
    else
      var n := |bindings| - 1;
      Calendars(bindings[..n]) + if bindings[n].cls == CALENDAR then [bindings[n]] else []
  }

  ghost function CalendarIds(bindings: seq<Binding>): set<string> { set b | b in bindings && b.cls == CALENDAR :: b.id }

  lemma {:induction false} CalendarsExact(bindings: seq<Binding>)
    ensures forall b :: b in Calendars(bindings) <==> b in bindings && b.cls == CALENDAR
  {
    if bindings != [] {
      var n := |bindings| - 1;
      CalendarsExact(bindings[..n]);
      assert bindings == bindings[..n] + [bindings[n]];
    }
  }

  lemma {:induction false} NoCalendars(bindings: seq<Binding>)
    requires forall b :: b in bindings ==> b.cls != CALENDAR
    ensures Calendars(bindings) == []
  {
    if bindings != [] {
      var n := |bindings| - 1;
      assert bindings == bindings[..n] + [bindings[n]];
      NoCalendars(bindings[..n]);
      assert bindings[n] in bindings;
    }
  }

  /** Calendars all have the one calendar scope, so roles that differ leave room for one. */
  lemma {:induction false} OneCalendar(bindings: seq<Binding>, generatedAt: Time)
    requires forall b :: b in bindings ==> BindingValid(b, generatedAt)
    requires DistinctBy(bindings, RoleOf)
    ensures |Calendars(bindings)| <= 1
  {
    if bindings != [] {
      var n := |bindings| - 1;
      assert bindings == bindings[..n] + [bindings[n]];
      KeysAppend(bindings[..n], bindings[n], RoleOf);
      OneCalendar(bindings[..n], generatedAt);
      CalendarsExact(bindings[..n]);
      if bindings[n].cls == CALENDAR {
        forall b | b in bindings[..n] ensures b.cls != CALENDAR {
          assert b in bindings && RoleOf(b) in Keys(bindings[..n], RoleOf);
        }
        NoCalendars(bindings[..n]);
      }
    }
  }

  lemma EachAppend(h: Header, bindings: seq<Binding>, b: Binding)
    ensures EachValid(h, bindings + [b]) <==> EachValid(h, bindings) && BindingValid(b, h.generatedAt)
    ensures EachTimely(h, bindings + [b]) <==> EachTimely(h, bindings) && Timely(h, b)
  {
    hide BindingValid, Timely;
    assert forall x :: x in bindings + [b] <==> x in bindings || x == b;
  }

  lemma EachPrefix(h: Header, bindings: seq<Binding>, n: nat)
    requires n <= |bindings| && EachValid(h, bindings)
    ensures EachValid(h, bindings[..n])
  {
    hide BindingValid;
    assert forall b :: b in bindings[..n] ==> b in bindings;
  }

  /** One pass over the bindings: the index by id, the roles, the calendars, and whether all were there in time. */
  method ScanBindings(h: Header, bindings: seq<Binding>)
    returns (valid: bool, index: map<string, Binding>, roles: set<(string, string)>, calendars: seq<Binding>, timely: bool)
    ensures valid <==> EachValid(h, bindings)
    ensures valid ==> index == Index(bindings) && roles == Keys(bindings, RoleOf) && calendars == Calendars(bindings)
    ensures valid ==> (timely <==> EachTimely(h, bindings))
  {
    hide BindingValid, Timely, EachValid, EachTimely, Keys, Index, Calendars;
    valid, index, roles, calendars, timely := true, map[], {}, [], true;
    NothingScanned(h);
    assert bindings[..0] == [];
    for n := 0 to |bindings|
      invariant valid && EachValid(h, bindings[..n])
      invariant index == Index(bindings[..n]) && roles == Keys(bindings[..n], RoleOf) && calendars == Calendars(bindings[..n])
      invariant timely <==> EachTimely(h, bindings[..n])
    {
      var b := bindings[n];
      assert bindings[..n + 1] == bindings[..n] + [b];
      KeysAppend(bindings[..n], b, RoleOf);
      ScanStep(bindings[..n], b);
      EachAppend(h, bindings[..n], b);
      if !BindingValid(b, h.generatedAt) {
        if EachValid(h, bindings) {
          EachPrefix(h, bindings, n + 1);
        }
        valid := false;
        return;
      }
      index, roles := index[b.id := b], roles + {RoleOf(b)};
      timely := timely && Timely(h, b);
      calendars := calendars + if b.cls == CALENDAR then [b] else [];
    }
    assert bindings[..|bindings|] == bindings;
  }

  lemma NothingScanned(h: Header)
    ensures EachValid(h, []) && EachTimely(h, []) && Keys<Binding, (string, string)>([], RoleOf) == {}
    ensures Index([]) == map[] && Calendars([]) == []
  {}

  lemma ScanStep(bindings: seq<Binding>, b: Binding)
    ensures Index(bindings + [b]) == Index(bindings)[b.id := b]
    ensures Calendars(bindings + [b]) == Calendars(bindings) + if b.cls == CALENDAR then [b] else []
  {
    assert (bindings + [b])[..|bindings|] == bindings;
  }

  /** What the scan leaves to decide. */
  lemma BindingsValidIff(h: Header, bindings: seq<Binding>)
    requires DaysPlaced(h)
    ensures BindingsValid(h, bindings) <==>
      && EachValid(h, bindings) && EachTimely(h, bindings)
      && |Index(bindings)| == |bindings| && |Keys(bindings, RoleOf)| == |bindings|
      && |Calendars(bindings)| == 1 && CalendarCovers(h, Calendars(bindings)[0])
    ensures |Calendars(bindings)| == 1 ==> {Calendars(bindings)[0].id} == CalendarIds(bindings)
  {
    hide BindingValid, Timely, CalendarCovers, DaysPlaced, DistinctBy, Index, Calendars;
    IndexKeys(bindings);
    DistinctIffCounted(bindings, IdOf);
    DistinctIffCounted(bindings, RoleOf);
    CalendarsExact(bindings);
    if EachValid(h, bindings) && DistinctBy(bindings, RoleOf) {
      OneCalendar(bindings, h.generatedAt);
    }
    if |Calendars(bindings)| == 1 {
      assert Calendars(bindings)[0] in Calendars(bindings);
    }
  }

  /** Checks each binding, then ids, roles, times and the calendar's window. */
  method IndexBindings(h: Header, bindings: seq<Binding>) returns (r: Option<map<string, Binding>>, calendar: string)
    requires DaysPlaced(h)
    ensures r.Some? <==> BindingsValid(h, bindings)
    ensures r.Some? ==> r.value == Index(bindings) && {calendar} == CalendarIds(bindings)
  {
    hide BindingsValid, CalendarCovers, DaysPlaced, Index, Calendars, CalendarIds, EachValid, EachTimely, Keys;
    BindingsValidIff(h, bindings);
    var valid, index, roles, calendars, timely := ScanBindings(h, bindings);
    if !valid || |index| != |bindings| || |roles| != |bindings| || !timely || |calendars| != 1
       || !CalendarCovers(h, calendars[0]) {
      return None, "";
    }
    return Some(index), calendars[0].id;
  }

  // ---------------------------------------------------------------- one product

  function RulesOf(h: Header, index: map<string, Binding>, p: Product): Rules
    requires DaysPlaced(h)
  {
    Rules(p.name, p.exchange, index, h.research, History(h))
  }

  predicate ReferenceValid(h: Header, index: map<string, Binding>, p: Product) {
    var r := p.reference;
    && BoundTo(index, r.binding, REFERENCE_OPEN, p.exchange, h.execution)
    && BelongsTo(r.observedAt, h.execution, h.days) && r.observedAt <= h.generatedAt && r.observedAt <= h.cutoffAt
    && IsContractOf(r.contract, p.name, p.exchange) && r.open > 0.0 && IsSha256(r.raw)
  }

  /** The price is a whole number of ticks, to within 1e-9 of a tick. */
  predicate Aligned(price: real, tick: real)
    requires tick > 0.0
  {
    Abs(price / tick - RoundHalfEven(price / tick) as real) <= 0.000000001
  }

  predicate SpecValid(h: Header, index: map<string, Binding>, p: Product)
    requires FrozenOf(p.name).Some?
  {
    var s := p.spec;
    && BoundTo(index, s.binding, CONTRACT_SPEC, p.exchange, h.execution)
    && s.tick > 0.0 && s.multiplier == FrozenOf(p.name).value.multiplier
    && Abs(s.tick - FrozenOf(p.name).value.tick) <= 0.000000000001
    && Aligned(p.reference.open, s.tick)
    && IsContractOf(s.contract, p.name, p.exchange) && IsSha256(s.raw)
  }

  ghost predicate ProductValid(h: Header, index: map<string, Binding>, p: Product)
    requires DaysPlaced(h)
  {
    && FrozenOf(p.name).Some? && p.exchange == FrozenOf(p.name).value.exchange
    && HistoryValid(RulesOf(h, index, p), p.daily)
    && ReferenceValid(h, index, p) && SpecValid(h, index, p)
  }

  ghost function UsedBy(p: Product): set<string> { DailyBindings(p.daily) + {p.reference.binding, p.spec.binding} }

  function CanonicalProduct(p: Product): Product { p.(daily := Canonical(p.daily)) }

  method NormalizeProduct(h: Header, index: map<string, Binding>, p: Product) returns (r: Option<Product>, used: set<string>)
    requires HeaderValid(h) && FrozenOf(p.name).Some?
    ensures r.Some? <==> ProductValid(h, index, p)
    ensures r.Some? ==> r.value == CanonicalProduct(p) && used == UsedBy(p)
  {
    hide HeaderValid, HistoryValid, ReferenceValid, SpecValid, Canonical, FrozenOf;
    PlacedDays(h);
    used := {};
    if p.exchange != FrozenOf(p.name).value.exchange {
      return None, used;
    }
    var daily;
    daily, used := NormalizeHistory(RulesOf(h, index, p), p.daily);
    if daily.None? || !ReferenceValid(h, index, p) || !SpecValid(h, index, p) {
      return None, used;
    }
    used := used + {p.reference.binding, p.spec.binding};
    return Some(Product(p.name, p.exchange, daily.value, p.reference, p.spec)), used;
  }

  // ---------------------------------------------------------------- the whole view

  function ProductName(p: Product): string { p.name }

  function NamesOf(products: seq<Product>): seq<string> { MapBy(products, ProductName) }

  function ProductLeq(a: Product, b: Product): bool { TextLeq(a.name, b.name) }

  function IdLeq(a: Binding, b: Binding): bool { TextLeq(a.id, b.id) }

  /** The products are the ten frozen ones, each once. */
  predicate TenProducts(products: seq<Product>) { SortBy(NamesOf(products), TextLeq) == Book.PRODUCTS }

  ghost function ProductBindings(products: seq<Product>): set<string> { set p, id | p in products && id in UsedBy(p) :: id }

  ghost predicate EveryBindingUsed(v: View) {
    CalendarIds(v.bindings) + ProductBindings(v.products) == Keys(v.bindings, IdOf)
  }

  ghost predicate ProductsValid(h: Header, index: map<string, Binding>, products: seq<Product>)
    requires DaysPlaced(h)
  {
    forall p :: p in products ==> ProductValid(h, index, p)
  }

  /** Everything but the last check, that every binding is used. */
  ghost predicate PartsValid(v: View) {
    && HeaderValid(v.header) && BindingsValid(v.header, v.bindings) && TenProducts(v.products)
    && ProductsValid(v.header, Index(v.bindings), v.products)
  }

  ghost predicate ViewValid(v: View) { PartsValid(v) && EveryBindingUsed(v) }

  /** Bindings by id, products by name, days by date, contracts by name. */
  function NormalForm(v: View): View {
    View(v.header, SortBy(v.bindings, IdLeq), MapBy(SortBy(v.products, ProductLeq), CanonicalProduct))
  }

  lemma FrozenTen()
    ensures forall name :: name in Book.PRODUCTS ==> FrozenOf(name).Some?
  {}

  lemma NameListed(products: seq<Product>, p: Product)
    requires p in products
    ensures p.name in SortBy(NamesOf(products), TextLeq)
  {
    var i :| 0 <= i < |products| && products[i] == p;
    assert NamesOf(products)[i] == p.name;
    SortPermutes(NamesOf(products), TextLeq);
  }

  lemma ProductNamed(products: seq<Product>, p: Product)
    requires TenProducts(products) && p in products
    ensures FrozenOf(p.name).Some?
  {
    hide FrozenOf, SortBy, NamesOf;
    NameListed(products, p);
    FrozenTen();
  }

  /** Normalizes the products in the order of their names. */
  method NormalizeProducts(h: Header, index: map<string, Binding>, products: seq<Product>)
    returns (r: Option<seq<Product>>, used: set<string>)
    requires HeaderValid(h) && forall p :: p in products ==> FrozenOf(p.name).Some?
    ensures r.Some? <==> ProductsValid(h, index, products)
    ensures r.Some? ==> r.value == MapBy(products, CanonicalProduct) && used == ProductBindings(products)
  {
    hide HeaderValid, ProductValid, CanonicalProduct, UsedBy, FrozenOf, ProductBindings;
    used := {};
    var rows: seq<Product> := [];
    PlacedDays(h);
    NoBindings();
    assert products[..0] == [];
    for n := 0 to |products|
      invariant rows == MapBy(products[..n], CanonicalProduct) && used == ProductBindings(products[..n])
      invariant forall i :: 0 <= i < n ==> ProductValid(h, index, products[i])
    {
      assert products[n] in products && products[..n + 1] == products[..n] + [products[n]];
      var row, ids := NormalizeProduct(h, index, products[n]);
      if row.None? {
        return None, used;
      }
      BindingsAppend(products[..n], products[n]);
      rows, used := rows + [row.value], used + ids;
    }
    assert products[..|products|] == products;
    return Some(rows), used;
  }

  /** Validates and normalizes a source view. */
  method NormalizeView(v: View) returns (r: Option<View>)
    ensures r.Some? <==> ViewValid(v)
    ensures r.Some? ==> r.value == NormalForm(v)
  {
    hide HeaderValid, BindingsValid, ProductValid, TenProducts, CanonicalProduct, UsedBy, FrozenOf, Index, Keys, CalendarIds, ProductBindings;
    if !HeaderValid(v.header) {
      return None;
    }
    PlacedDays(v.header);
    var index, calendar := IndexBindings(v.header, v.bindings);
    if index.None? || !TenProducts(v.products) {
      return None;
    }
    var sorted := SortBy(v.products, ProductLeq);
    SortPermutes(v.products, ProductLeq);
    forall p | p in sorted ensures FrozenOf(p.name).Some? { ProductNamed(v.products, p); }
    var rows, used := NormalizeProducts(v.header, index.value, sorted);
    if rows.None? {
      return None;
    }
    BindingsPermute(sorted, v.products);
    IndexKeys(v.bindings);
    if {calendar} + used != index.value.Keys {
      return None;
    }
    return Some(View(v.header, SortBy(v.bindings, IdLeq), rows.value));
  }

  lemma NoBindings()
    ensures ProductBindings([]) == {}
  {}

  lemma BindingsPermute(a: seq<Product>, b: seq<Product>)
    requires multiset(a) == multiset(b)
    ensures ProductBindings(a) == ProductBindings(b)
  {
    hide UsedBy;
    SameElements(a, b);
  }

  lemma BindingsAppend(products: seq<Product>, p: Product)
    ensures ProductBindings(products + [p]) == ProductBindings(products) + UsedBy(p)
  {
    hide UsedBy;
    assert forall q :: q in products + [p] <==> q in products || q == p;
  }
}
