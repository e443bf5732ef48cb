/**
 The source bindings and the daily history of one product: how a history is checked against the bindings that
 vouch for it, and normalized. Acceptance and the normal form do not depend on the listing order.
 */
module SourceHistory {
  import opened Optional
  import opened Clock
  import opened Sorting

  const MARKET_DAILY := "MARKET_DAILY"
  const CALENDAR := "CALENDAR"
  const REFERENCE_OPEN := "REFERENCE_OPEN"
  const CONTRACT_SPEC := "CONTRACT_SPEC"
  const SHFE := "SHFE"
  const INE := "INE"
  const BOTH := "SHFE_INE"

  /** Where rows of the view come from: one class of data, for one exchange or for both, over a window of dates. */
  datatype Binding = Binding(
    id: string, cls: string, scope: string, identity: string, queryStart: Date, queryEnd: Date,
    cutoffAt: Time, generatedAt: Time, raw: string, lineage: string, receipt: string)

  datatype Contract = Contract(name: string, delivery: int, settlement: real, openInterest: real)

  datatype Daily = Daily(day: Date, binding: string, contracts: seq<Contract>)

  /** What a product's history is checked against: the bindings by id, the research day and the days to cover. */
  datatype Rules = Rules(product: string, exchange: string, bindings: map<string, Binding>, research: Date, history: seq<Date>)

  /** The binding of that id holds that class of data for the exchange, over a window with the day in it. */
  predicate BoundTo(bindings: map<string, Binding>, id: string, cls: string, exchange: string, day: Date) {
    && id in bindings
    && var b := bindings[id];
    && b.cls == cls && b.scope == exchange && b.queryStart <= day <= b.queryEnd
  }

  // ---------------------------------------------------------------- contract names

  predicate Digits(s: string) { forall i :: 0 <= i < |s| ==> '0' <= s[i] <= '9' }

  function Value(s: string): int { if s == [] then 0 else Value(s[..|s| - 1]) * 10 + (s[|s| - 1] as int - '0' as int) }

  /** The exchange, a dot, the product and four digits. */
  predicate IsContractOf(name: string, product: string, exchange: string) {
    && (exchange == SHFE || exchange == INE)
    && |product| == 2 && (forall i :: 0 <= i < 2 ==> 'a' <= product[i] <= 'z')
    && |name| == |exchange| + 7
    && name[..|exchange| + 3] == exchange + "." + product && Digits(name[|exchange| + 3..])
  }

  /** The delivery month that the four digits of a contract name spell: two of the year, two of the month. */
  function DeliveryMonth(name: string): Option<int> {
    if |name| < 4 then None
    else
      var digits := name[|name| - 4..];
      var year, month := 2000 + Value(digits[..2]), Value(digits[2..]);
      if 1 <= month <= 12 then Some(year * 100 + month) else None
  }

  function Digit(k: nat): char
    requires k < 10
  {
    ('0' as int + k) as char
  }

  function TwoDigits(n: nat): string
    requires n < 100
  {
    [Digit(n / 10), Digit(n % 10)]
  }

  /** The name of a contract that delivers in a month of the years 2000 to 2099. */
  function Spell(exchange: string, product: string, year: nat, month: nat): string
    requires year < 100 && month < 100
  {
    exchange + "." + product + TwoDigits(year) + TwoDigits(month)
  }

  lemma ValueOfTwo(s: string)
    requires |s| == 2 && Digits(s)
    ensures 0 <= Value(s) < 100 && s == TwoDigits(Value(s))
    ensures Value(s) == (s[0] as int - '0' as int) * 10 + (s[1] as int - '0' as int)
  {
    assert s[..1][..0] == [] && Value(s[..1]) == s[0] as int - '0' as int;
    assert '0' <= s[0] <= '9' && '0' <= s[1] <= '9';
  }

  lemma TwoDigitsValue(n: nat)
    requires n < 100
    ensures Digits(TwoDigits(n)) && Value(TwoDigits(n)) == n
  {
    assert Digits(TwoDigits(n));
    ValueOfTwo(TwoDigits(n));
  }

  predicate Tradable(product: string, exchange: string) {
    (exchange == SHFE || exchange == INE) && |product| == 2 && 'a' <= product[0] <= 'z' && 'a' <= product[1] <= 'z'
  }

  /** A spelled name is a name of its product and exchange, and spells its own delivery month when that is a month. */
  lemma SpelledNames(exchange: string, product: string, year: nat, month: nat)
    requires Tradable(product, exchange) && year < 100 && month < 100
    ensures IsContractOf(Spell(exchange, product, year, month), product, exchange)
    ensures DeliveryMonth(Spell(exchange, product, year, month))
         == if 1 <= month <= 12 then Some((2000 + year) * 100 + month) else None
  {
    var name, n := Spell(exchange, product, year, month), |exchange|;
    TwoDigitsValue(year);
    TwoDigitsValue(month);
    assert name[..n + 3] == exchange + "." + product;
    assert name[n + 3..] == TwoDigits(year) + TwoDigits(month);
    assert name[|name| - 4..][..2] == TwoDigits(year) && name[|name| - 4..][2..] == TwoDigits(month);
  }

  /** There are no other names of a product on an exchange. */
  lemma NamesAreSpelled(name: string, product: string, exchange: string) returns (year: nat, month: nat)
    requires IsContractOf(name, product, exchange)
    ensures Tradable(product, exchange) && year < 100 && month < 100 && name == Spell(exchange, product, year, month)
  {
    var n := |exchange|;
    var digits := name[n + 3..];
    ValueOfTwo(digits[..2]);
    ValueOfTwo(digits[2..]);
    year, month := Value(digits[..2]), Value(digits[2..]);
    assert name == name[..n + 3] + digits[..2] + digits[2..];
  }

  // ---------------------------------------------------------------- orders

  function Code(c: char): int { c as int }

  function TextLeq(a: string, b: string): bool { LexLeq(a, b, Code) }

  function CharLess(x: char, y: char): bool { x < y }

  /** The first character in which they differ is smaller in `a`, or `a` ends there. */
  ghost predicate TextFirst(a: string, b: string) { a == b || exists k: nat :: SmallerAt(a, b, CharLess, k) }

  lemma TextLeqMeans(a: string, b: string)
    ensures TextLeq(a, b) <==> TextFirst(a, b)
  {
    LexDecided(a, b, Code, CharLess);
  }

  function NameLeq(a: Contract, b: Contract): bool { TextLeq(a.name, b.name) }

  function DayLeq(a: Daily, b: Daily): bool { a.day <= b.day }

  lemma TextOrder()
    ensures TotalPreorder(TextLeq)
    ensures forall a, b :: TextLeq(a, b) && TextLeq(b, a) ==> a == b
  {
    forall a, b ensures TextLeq(a, b) || TextLeq(b, a)
                ensures TextLeq(a, b) && TextLeq(b, a) ==> a == b
    {
      LexTotal(a, b, Code);
    }
    forall a, b, c | TextLeq(a, b) && TextLeq(b, c) ensures TextLeq(a, c) { LexTransitive(a, b, c, Code); }
  }

  lemma NameOrder()
    ensures TotalPreorder(NameLeq)
  {
    TextOrder();
  }

  // ---------------------------------------------------------------- one day

  function NameOf(c: Contract): string { c.name }

  function DayOf(d: Daily): Date { d.day }

  predicate ContractValid(rules: Rules, c: Contract) {
    && IsContractOf(c.name, rules.product, rules.exchange) && DeliveryMonth(c.name) == Some(c.delivery)
    && c.settlement >= 0.0 && c.openInterest >= 0.0
  }

  /** A market binding may not have been queried past the research day. */
  predicate DayBound(rules: Rules, d: Daily) {
    && BoundTo(rules.bindings, d.binding, MARKET_DAILY, rules.exchange, d.day)
    && rules.bindings[d.binding].queryEnd <= rules.research
  }

  ghost predicate DayValid(rules: Rules, d: Daily) {
    && d.day <= rules.research && DayBound(rules, d)
    && |d.contracts| >= 3 && DistinctBy(d.contracts, NameOf)
    && forall c :: c in d.contracts ==> ContractValid(rules, c)
  }

  function CanonicalDay(d: Daily): Daily { d.(contracts := SortBy(d.contracts, NameLeq)) }

  /** The same day listing the same contracts, in whatever order. */
  ghost predicate SameDay(a: Daily, b: Daily) {
    a.day == b.day && a.binding == b.binding && multiset(a.contracts) == multiset(b.contracts)
  }

  lemma SameDayCanonical(rules: Rules, a: Daily, b: Daily)
    requires SameDay(a, b)
    ensures DayValid(rules, a) <==> DayValid(rules, b)
    ensures DayValid(rules, a) ==> CanonicalDay(a) == CanonicalDay(b)
  {
    hide ContractValid, TextLeq;
    SameElements(a.contracts, b.contracts);
    DistinctPermutes(a.contracts, b.contracts, NameOf);
    if DayValid(rules, a) {
      NameOrder();
      TextOrder();
      DistinctTellsApart(a.contracts, NameOf);
      SortOrderIndependent(a.contracts, b.contracts, NameLeq);
    }
  }

  lemma CanonicalIsSame(d: Daily)
    ensures SameDay(d, CanonicalDay(d))
  {
    SortPermutes(d.contracts, NameLeq);
  }

  /** Checks the contracts of a day in turn, then sorts them by name. */
  method NormalizeDay(rules: Rules, d: Daily) returns (r: Option<Daily>)
    ensures r.Some? <==> DayValid(rules, d)
    ensures r.Some? ==> r.value == CanonicalDay(d)
  {
    hide ContractValid, DayBound;
    if d.day > rules.research || !DayBound(rules, d) || |d.contracts| < 3 {
      return None;
    }
    var seen: set<string>, rows: seq<Contract> := {}, [];
    for n := 0 to |d.contracts|
      invariant rows == d.contracts[..n] && seen == Keys(rows, NameOf) && DistinctBy(rows, NameOf)
      invariant forall i :: 0 <= i < n ==> ContractValid(rules, d.contracts[i])
    {
      var c := d.contracts[n];
      KeysAppend(rows, c, NameOf);
      assert c in d.contracts && d.contracts[..n + 1] == rows + [c];
      if c.name in seen {
        assert !DistinctBy(d.contracts[..n + 1], NameOf);
        return None;
      }
      if !ContractValid(rules, c) {
        return None;
      }
      seen, rows := seen + {c.name}, rows + [c];
    }
    assert rows == d.contracts;
    return Some(Daily(d.day, d.binding, SortBy(rows, NameLeq)));
  }

  // ---------------------------------------------------------------- the whole history

  function CanonicalDays(raw: seq<Daily>): seq<Daily> { MapBy(raw, CanonicalDay) }

  function Canonical(raw: seq<Daily>): seq<Daily> { SortBy(CanonicalDays(raw), DayLeq) }

  function DaysOf(days: seq<Daily>): seq<Date> { MapBy(days, DayOf) }

  ghost predicate DaysValid(rules: Rules, raw: seq<Daily>) { forall i :: 0 <= i < |raw| ==> DayValid(rules, raw[i]) }

  /** A history the view accepts: valid days, none twice, together exactly the official days. */
  ghost predicate HistoryValid(rules: Rules, raw: seq<Daily>) {
    && DaysValid(rules, raw) && DistinctBy(raw, DayOf)
    && DaysOf(Canonical(raw)) == rules.history
  }

  ghost function DailyBindings(raw: seq<Daily>): set<string> { set d | d in raw :: d.binding }

  /** Checks each day, refuses a repeated one, sorts by day and compares with the official days. */
  method NormalizeHistory(rules: Rules, raw: seq<Daily>) returns (r: Option<seq<Daily>>, used: set<string>)
    ensures r.Some? <==> HistoryValid(rules, raw)
    ensures r.Some? ==> r.value == Canonical(raw) && used == DailyBindings(raw)
  {
    hide DayValid, CanonicalDay;
    used := {};
    var seen: set<Date>, rows: seq<Daily> := {}, [];
    for n := 0 to |raw|
      invariant rows == CanonicalDays(raw[..n]) && seen == Keys(raw[..n], DayOf) && DistinctBy(raw[..n], DayOf)
      invariant forall i :: 0 <= i < n ==> DayValid(rules, raw[i])
      invariant used == DailyBindings(raw[..n])
    {
      assert raw[n] in raw && raw[..n + 1] == raw[..n] + [raw[n]];
      KeysAppend(raw[..n], raw[n], DayOf);
      var row := NormalizeDay(rules, raw[n]);
      if row.None? {
        return None, used;
      }
      if raw[n].day in seen {
        assert !DistinctBy(raw[..n + 1], DayOf);
        return None, used;
      }
      seen, rows, used := seen + {raw[n].day}, rows + [row.value], used + {raw[n].binding};
    }
    assert raw[..|raw|] == raw;
    rows := SortBy(rows, DayLeq);
    if DaysOf(rows) != rules.history {
      return None, used;
    }
    return Some(rows), used;
  }

  // ---------------------------------------------------------------- order independence

  /** `b` lists the days of `a` with their contracts reordered, `c` lists those days in another order. */
  ghost predicate Relisted(a: seq<Daily>, b: seq<Daily>, c: seq<Daily>) {
    |a| == |b| && (forall i :: 0 <= i < |a| ==> SameDay(a[i], b[i])) && multiset(b) == multiset(c)
  }

  lemma DayOrder()
    ensures TotalPreorder(DayLeq)
  {}

  lemma CanonicalKeepsDays(raw: seq<Daily>)
    ensures DistinctBy(CanonicalDays(raw), DayOf) <==> DistinctBy(raw, DayOf)
  {
    assert forall i :: 0 <= i < |raw| ==> DayOf(CanonicalDays(raw)[i]) == DayOf(raw[i]);
  }

  lemma CanonicalDaysAgree(a: seq<Daily>, c: seq<Daily>)
    requires multiset(CanonicalDays(a)) == multiset(CanonicalDays(c)) && DistinctBy(a, DayOf)
    ensures Canonical(a) == Canonical(c)
  {
    DayOrder();
    CanonicalKeepsDays(a);
    DistinctTellsApart(CanonicalDays(a), DayOf);
    SortOrderIndependent(CanonicalDays(a), CanonicalDays(c), DayLeq);
  }

  lemma SameDaysCanonical(rules: Rules, a: seq<Daily>, b: seq<Daily>)
    requires |a| == |b| && forall i :: 0 <= i < |a| ==> SameDay(a[i], b[i])
    ensures DaysValid(rules, a) <==> DaysValid(rules, b)
    ensures DistinctBy(a, DayOf) <==> DistinctBy(b, DayOf)
    ensures DaysValid(rules, a) ==> CanonicalDays(a) == CanonicalDays(b)
  {
    hide DayValid, CanonicalDay;
    forall i | 0 <= i < |a|
      ensures DayValid(rules, a[i]) <==> DayValid(rules, b[i])
      ensures DayValid(rules, a[i]) ==> CanonicalDay(a[i]) == CanonicalDay(b[i])
    {
      SameDayCanonical(rules, a[i], b[i]);
    }
    assert forall i :: 0 <= i < |a| ==> DayOf(a[i]) == DayOf(b[i]);
  }

  lemma ValidDaysPermute(rules: Rules, b: seq<Daily>, c: seq<Daily>)
    requires multiset(b) == multiset(c)
    ensures DaysValid(rules, b) <==> DaysValid(rules, c)
  {
    hide DayValid;
    SameElements(b, c);
    assert DaysValid(rules, b) ==> forall d :: d in c ==> DayValid(rules, d);
    assert DaysValid(rules, c) ==> forall d :: d in b ==> DayValid(rules, d);
    assert forall i :: 0 <= i < |b| ==> b[i] in b;
    assert forall i :: 0 <= i < |c| ==> c[i] in c;
  }

  /** Listing days or contracts in another order changes neither acceptance nor the normal form. */
  lemma OrderIndependent(rules: Rules, a: seq<Daily>, b: seq<Daily>, c: seq<Daily>)
    requires Relisted(a, b, c)
    ensures HistoryValid(rules, a) <==> HistoryValid(rules, c)
    ensures HistoryValid(rules, a) ==> Canonical(a) == Canonical(c)
  {
    hide DayValid, DaysValid, SameDay, DistinctBy, Canonical, DaysOf;
    SameDaysCanonical(rules, a, b);
    ValidDaysPermute(rules, b, c);
    DistinctPermutes(b, c, DayOf);
    MapPermutes(b, c, CanonicalDay);
    if DaysValid(rules, a) && DistinctBy(a, DayOf) {
      CanonicalDaysAgree(a, c);
    }
  }

  lemma DailyBindingsRelisted(a: seq<Daily>, b: seq<Daily>, c: seq<Daily>)
    requires Relisted(a, b, c)
    ensures DailyBindings(a) == DailyBindings(c)
  {
    SameElements(b, c);
    forall id ensures id in DailyBindings(a) <==> id in DailyBindings(b) {
      if d :| d in a && d.binding == id {
        var i :| 0 <= i < |a| && a[i] == d;
        assert SameDay(a[i], b[i]) && b[i] in b;
      }
      if d :| d in b && d.binding == id {
        var i :| 0 <= i < |b| && b[i] == d;
        assert SameDay(a[i], b[i]) && a[i] in a;
      }
    }
  }

  lemma CanonicalRelists(raw: seq<Daily>)
    ensures Relisted(raw, CanonicalDays(raw), Canonical(raw))
  {
    forall i | 0 <= i < |raw| ensures SameDay(raw[i], CanonicalDays(raw)[i]) {
      CanonicalIsSame(raw[i]);
    }
    SortPermutes(CanonicalDays(raw), DayLeq);
  }

  /** A normal form is accepted and is its own normal form. */
  lemma NormalizingTwice(rules: Rules, raw: seq<Daily>)
    requires HistoryValid(rules, raw)
    ensures HistoryValid(rules, Canonical(raw)) && Canonical(Canonical(raw)) == Canonical(raw)
  {
    CanonicalRelists(raw);
    OrderIndependent(rules, raw, CanonicalDays(raw), Canonical(raw));
  }

  /** Every day of a normal form is one of the official days in order, with its contracts by name and none listed twice. */
  lemma NormalFormDays(rules: Rules, raw: seq<Daily>, i: nat)
    requires HistoryValid(rules, raw) && i < |Canonical(raw)|
    ensures |Canonical(raw)| == |rules.history| && Canonical(raw)[i].day == rules.history[i]
    ensures DistinctBy(Canonical(raw)[i].contracts, NameOf) && |Canonical(raw)[i].contracts| >= 3
    ensures ListedByName(Canonical(raw)[i].contracts)
  {
    hide DayBound, ContractValid, ListedByName;
    NormalizingTwice(rules, raw);
    assert Canonical(raw)[i] in Canonical(raw);
    assert DaysOf(Canonical(raw))[i] == Canonical(raw)[i].day;
    SortPermutes(CanonicalDays(raw), DayLeq);
    var k :| 0 <= k < |raw| && CanonicalDays(raw)[k] == Canonical(raw)[i];
    CanonicalDayListed(raw[k]);
  }

  ghost predicate ListedByName(contracts: seq<Contract>) {
    forall j, k :: 0 <= j < k < |contracts| ==> TextFirst(contracts[j].name, contracts[k].name)
  }

  lemma CanonicalDayListed(d: Daily)
    ensures ListedByName(CanonicalDay(d).contracts)
  {
    hide TextLeq, TextFirst;
    var s := CanonicalDay(d).contracts;
    NameOrder();
    SortSorted(d.contracts, NameLeq);
    forall j, k | 0 <= j < k < |s| ensures TextFirst(s[j].name, s[k].name) {
      assert NameLeq(s[j], s[k]);
      TextLeqMeans(s[j].name, s[k].name);
    }
  }
}
