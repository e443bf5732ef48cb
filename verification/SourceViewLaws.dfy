/**
 Laws of the source view: neither acceptance nor the normal form nor any point-in-time main depends on how
 bindings, products, days and contracts are listed, and an accepted view has one binding for each role.
 */
module SourceViewLaws {
  import opened Optional
  import opened Clock
  import opened Identifiers
  import opened Sorting
  import opened RealMath
  import opened SourceHistory
  import opened SourceView
  import Book
  import RollIndex

  // ---------------------------------------------------------------- order independence

  ghost predicate SameDaily(a: seq<Daily>, c: seq<Daily>) { exists b :: Relisted(a, b, c) }

  /** The same product with its days and their contracts listed in any order. */
  ghost predicate SameProduct(p: Product, q: Product) {
    && p.name == q.name && p.exchange == q.exchange && p.reference == q.reference && p.spec == q.spec
    && SameDaily(p.daily, q.daily)
  }

  ghost predicate SameProducts(a: seq<Product>, b: seq<Product>) {
    |a| == |b| && forall i :: 0 <= i < |a| ==> SameProduct(a[i], b[i])
  }

  /** The same view with its bindings, products, days and contracts listed in any order. */
  ghost predicate SameView(a: View, c: View) {
    && a.header == c.header && multiset(a.bindings) == multiset(c.bindings)
    && exists b :: SameProducts(a.products, b) && multiset(b) == multiset(c.products)
  }

  lemma SameProductAgrees(h: Header, index: map<string, Binding>, p: Product, q: Product)
    requires DaysPlaced(h) && SameProduct(p, q)
    ensures ProductValid(h, index, p) <==> ProductValid(h, index, q)
    ensures ProductValid(h, index, p) ==> CanonicalProduct(p) == CanonicalProduct(q)
    ensures UsedBy(p) == UsedBy(q)
  {
    hide DaysPlaced, HistoryValid, BoundTo, BelongsTo, Aligned, FrozenOf, IsContractOf, IsSha256, Canonical, DailyBindings, Relisted;
    var b :| Relisted(p.daily, b, q.daily);
    OrderIndependent(RulesOf(h, index, p), p.daily, b, q.daily);
    DailyBindingsRelisted(p.daily, b, q.daily);
  }

  lemma SameProductsAgree(h: Header, index: map<string, Binding>, a: seq<Product>, b: seq<Product>)
    requires DaysPlaced(h) && SameProducts(a, b)
    ensures ProductsValid(h, index, a) <==> ProductsValid(h, index, b)
    ensures ProductsValid(h, index, a) ==> MapBy(a, CanonicalProduct) == MapBy(b, CanonicalProduct)
    ensures ProductBindings(a) == ProductBindings(b)
    ensures NamesOf(a) == NamesOf(b)
  {
    hide DaysPlaced, ProductValid, CanonicalProduct, UsedBy, SameProduct;
    forall i | 0 <= i < |a|
      ensures ProductValid(h, index, a[i]) <==> ProductValid(h, index, b[i])
      ensures ProductValid(h, index, a[i]) ==> CanonicalProduct(a[i]) == CanonicalProduct(b[i])
      ensures UsedBy(a[i]) == UsedBy(b[i]) && a[i].name == b[i].name
    {
      SameProductAgrees(h, index, a[i], b[i]);
      SameNames(a[i], b[i]);
    }
    ByPosition(h, index, a);
    ByPosition(h, index, b);
    UsedByPosition(a);
    UsedByPosition(b);
  }

  lemma SameNames(p: Product, q: Product)
    requires SameProduct(p, q)
    ensures p.name == q.name
  {}

  lemma ByPosition(h: Header, index: map<string, Binding>, s: seq<Product>)
    requires DaysPlaced(h)
    ensures ProductsValid(h, index, s) <==> forall i :: 0 <= i < |s| ==> ProductValid(h, index, s[i])
  {
    hide DaysPlaced, ProductValid;
    assert forall i :: 0 <= i < |s| ==> s[i] in s;
  }

  lemma UsedByPosition(s: seq<Product>)
    ensures forall id :: id in ProductBindings(s) <==> exists i :: 0 <= i < |s| && id in UsedBy(s[i])
  {
    hide UsedBy;
    assert forall i :: 0 <= i < |s| ==> s[i] in s;
  }

  lemma ValidProductsPermute(h: Header, index: map<string, Binding>, b: seq<Product>, c: seq<Product>)
    requires DaysPlaced(h) && multiset(b) == multiset(c)
    ensures ProductsValid(h, index, b) <==> ProductsValid(h, index, c)
  {
    hide DaysPlaced, ProductValid;
    SameElements(b, c);
  }

  /** The ten names are told apart, so a view's products are. */
  lemma TenAreDistinct(products: seq<Product>)
    requires TenProducts(products)
    ensures DistinctBy(products, ProductName)
  {
    var names := NamesOf(products);
    SortPermutes(names, TextLeq);
    FrozenNamesDistinct();
    DistinctPermutes(Book.PRODUCTS, names, Itself);
    forall i, j | 0 <= i < j < |products| ensures ProductName(products[i]) != ProductName(products[j]) {
      assert Itself(names[i]) != Itself(names[j]);
    }
  }

  function Itself(s: string): string { s }

  lemma FrozenNamesDistinct()
    ensures DistinctBy(Book.PRODUCTS, Itself)
  {}

  lemma TenProductsPermute(b: seq<Product>, c: seq<Product>)
    requires multiset(b) == multiset(c)
    ensures TenProducts(b) <==> TenProducts(c)
  {
    MapPermutes(b, c, ProductName);
    TextOrder();
    SortOrderIndependent(NamesOf(b), NamesOf(c), TextLeq);
  }

  lemma SortedProductsAgree(a: seq<Product>, c: seq<Product>)
    requires TenProducts(a) && multiset(MapBy(a, CanonicalProduct)) == multiset(MapBy(c, CanonicalProduct))
    ensures MapBy(SortBy(a, ProductLeq), CanonicalProduct) == MapBy(SortBy(c, ProductLeq), CanonicalProduct)
  {
    hide TextLeq, TenProducts;
    var x, y := MapBy(a, CanonicalProduct), MapBy(c, CanonicalProduct);
    TenAreDistinct(a);
    TextOrder();
    assert DistinctBy(x, ProductName) by {
      assert forall i :: 0 <= i < |a| ==> ProductName(x[i]) == ProductName(a[i]);
    }
    DistinctTellsApart(x, ProductName);
    SortOrderIndependent(x, y, ProductLeq);
    SortMaps(a, ProductLeq, ProductLeq, CanonicalProduct);
    SortMaps(c, ProductLeq, ProductLeq, CanonicalProduct);
  }

  lemma BindingsValidPermute(h: Header, a: seq<Binding>, c: seq<Binding>)
    requires DaysPlaced(h) && multiset(a) == multiset(c)
    ensures BindingsValid(h, a) <==> BindingsValid(h, c)
    ensures CalendarIds(a) == CalendarIds(c) && Keys(a, IdOf) == Keys(c, IdOf)
  {
    hide DaysPlaced, BindingValid, Timely, CalendarCovers;
    SameElements(a, c);
    DistinctPermutes(a, c, IdOf);
    DistinctPermutes(a, c, RoleOf);
  }

  lemma SortedBindingsAgree(a: seq<Binding>, c: seq<Binding>)
    requires multiset(a) == multiset(c) && DistinctBy(a, IdOf)
    ensures SortBy(a, IdLeq) == SortBy(c, IdLeq)
  {
    hide TextLeq;
    TextOrder();
    DistinctTellsApart(a, IdOf);
    SortOrderIndependent(a, c, IdLeq);
  }

  /** Acceptance and the normal form do not depend on the listing of bindings, products, days and contracts. */
  lemma ViewOrderIndependent(a: View, c: View)
    requires SameView(a, c)
    ensures ViewValid(a) <==> ViewValid(c)
    ensures ViewValid(a) ==> NormalForm(a) == NormalForm(c)
  {
    hide HeaderValid, BindingsValid, ProductsValid, TenProducts, SameProducts, Index, Keys, CalendarIds, ProductBindings, CanonicalProduct;
    var b :| SameProducts(a.products, b) && multiset(b) == multiset(c.products);
    if HeaderValid(a.header) {
      PlacedDays(a.header);
      var h := a.header;
      BindingsValidPermute(h, a.bindings, c.bindings);
      if BindingsValid(h, a.bindings) {
        IdsDistinct(h, a.bindings);
        IndexPermutes(a.bindings, c.bindings);
        SortedBindingsAgree(a.bindings, c.bindings);
        SameProductsAgree(h, Index(a.bindings), a.products, b);
        ValidProductsPermute(h, Index(a.bindings), b, c.products);
        BindingsPermute(b, c.products);
        SameTen(a.products, b);
        TenProductsPermute(b, c.products);
        if TenProducts(a.products) && ProductsValid(h, Index(a.bindings), a.products) {
          MapPermutes(b, c.products, CanonicalProduct);
          SortedProductsAgree(a.products, c.products);
        }
      }
    }
  }

  lemma IdsDistinct(h: Header, bindings: seq<Binding>)
    requires DaysPlaced(h) && BindingsValid(h, bindings)
    ensures DistinctBy(bindings, IdOf)
  {}

  lemma SameTen(a: seq<Product>, b: seq<Product>)
    requires NamesOf(a) == NamesOf(b)
    ensures TenProducts(a) <==> TenProducts(b)
  {}

  lemma NormalFormSame(v: View)
    ensures SameView(v, NormalForm(v))
  {
    hide Canonical, Relisted;
    var b, n := MapBy(v.products, CanonicalProduct), NormalForm(v);
    SortPermutes(v.bindings, IdLeq);
    SortMaps(v.products, ProductLeq, ProductLeq, CanonicalProduct);
    SortPermutes(b, ProductLeq);
    forall i | 0 <= i < |v.products| ensures SameProduct(v.products[i], b[i]) {
      CanonicalRelists(v.products[i].daily);
      assert SameDaily(v.products[i].daily, b[i].daily);
    }
    assert SameProducts(v.products, b) && multiset(b) == multiset(n.products);
  }

  /** A normal form is accepted, is its own normal form, and lists the ten products in their frozen order. */
  lemma NormalizingViewTwice(v: View)
    requires ViewValid(v)
    ensures ViewValid(NormalForm(v)) && NormalForm(NormalForm(v)) == NormalForm(v)
    ensures NamesOf(NormalForm(v).products) == Book.PRODUCTS
    ensures BindingsById(NormalForm(v).bindings)
  {
    hide ViewValid, NormalForm, BindingsById;
    SortedById(v);
    NormalFormSame(v);
    ViewOrderIndependent(v, NormalForm(v));
    NormalFormNames(v);
  }

  ghost predicate BindingsById(bindings: seq<Binding>) {
    forall i, j :: 0 <= i < j < |bindings| ==> TextFirst(bindings[i].id, bindings[j].id)
  }

  lemma SortedById(v: View)
    ensures BindingsById(NormalForm(v).bindings)
  {
    hide TextLeq, TextFirst;
    var s := NormalForm(v).bindings;
    TextOrder();
    assert TotalPreorder(IdLeq);
    SortSorted(v.bindings, IdLeq);
    forall i, j | 0 <= i < j < |s| ensures TextFirst(s[i].id, s[j].id) {
      assert IdLeq(s[i], s[j]);
      TextLeqMeans(s[i].id, s[j].id);
    }
  }

  lemma NormalFormNames(v: View)
    requires ViewValid(v)
    ensures NamesOf(NormalForm(v).products) == Book.PRODUCTS
  {
    hide HeaderValid, BindingsValid, ProductsValid, Index;
    SortMaps(v.products, ProductLeq, TextLeq, ProductName);
    var sorted := SortBy(v.products, ProductLeq);
    assert forall i :: 0 <= i < |sorted| ==> ProductName(CanonicalProduct(sorted[i])) == ProductName(sorted[i]);
  }

  // ---------------------------------------------------------------- the point-in-time mains

  /** In two listings of one view, a product's day ranks the same contracts in the same order, so it has the same main. */
  lemma MainsAgree(a: View, c: View, p: Product, q: Product, d: Daily, e: Daily)
    requires SameView(a, c) && ViewValid(a)
    requires p in a.products && q in c.products && p.name == q.name
    requires d in p.daily && e in q.daily && d.day == e.day
    ensures RollIndex.Ranking(d) == RollIndex.Ranking(e)
  {
    hide ViewValid, SameProducts, RollIndex.Ranking;
    ViewOrderIndependent(a, c);
    var b :| SameProducts(a.products, b) && multiset(b) == multiset(c.products);
    SameElements(b, c.products);
    var m := Counterpart(a.products, b, p);
    SameNames(p, m);
    ValidProduct(a, p);
    ValidProduct(c, q);
    DistinctTellsApart(c.products, ProductName);
    assert ProductName(m) == ProductName(q);
    var e' := DayCounterpart(p.daily, q.daily, d);
    DistinctTellsApart(q.daily, DayOf);
    assert DayOf(e') == DayOf(e);
    assert DistinctBy(d.contracts, NameOf) by {
      var i :| 0 <= i < |p.daily| && p.daily[i] == d;
    }
    RollIndex.RankingOrderIndependent(d, e);
  }

  lemma Counterpart(a: seq<Product>, b: seq<Product>, p: Product) returns (m: Product)
    requires SameProducts(a, b) && p in a
    ensures m in b && SameProduct(p, m)
  {
    var i :| 0 <= i < |a| && a[i] == p;
    m := b[i];
  }

  lemma DayCounterpart(a: seq<Daily>, c: seq<Daily>, d: Daily) returns (e: Daily)
    requires SameDaily(a, c) && d in a
    ensures e in c && SameDay(d, e)
  {
    var b :| Relisted(a, b, c);
    var i :| 0 <= i < |a| && a[i] == d;
    SameElements(b, c);
    assert b[i] in b;
    e := b[i];
  }

  lemma ValidProduct(v: View, p: Product)
    requires ViewValid(v) && p in v.products
    ensures DistinctBy(v.products, ProductName) && DistinctBy(p.daily, DayOf)
    ensures forall i :: 0 <= i < |p.daily| ==> DistinctBy(p.daily[i].contracts, NameOf)
  {
    hide HeaderValid, BindingsValid, TenProducts, Index, ReferenceValid, SpecValid, FrozenOf, DayBound, ContractValid, Canonical;
    TenAreDistinct(v.products);
  }

  // ---------------------------------------------------------------- what an accepted view is made of

  /** The class and scope of every binding a view can have. */
  function Roles(): set<(string, string)> {
    {(CALENDAR, BOTH), (MARKET_DAILY, SHFE), (MARKET_DAILY, INE), (REFERENCE_OPEN, SHFE), (REFERENCE_OPEN, INE),
     (CONTRACT_SPEC, SHFE), (CONTRACT_SPEC, INE)}
  }

  lemma SevenRoles()
    ensures |Roles()| == 7
  {}

  lemma RoleListed(b: Binding, generatedAt: Time)
    requires BindingValid(b, generatedAt)
    ensures RoleOf(b) in Roles()
  {
    hide IsStableId, IsSha256;
  }

  /** Some binding plays the role, and the view uses it. */
  ghost predicate RoleUsed(v: View, role: (string, string)) {
    exists b :: b in v.bindings && RoleOf(b) == role && b.id in CalendarIds(v.bindings) + ProductBindings(v.products)
  }

  lemma BoundRole(v: View, p: Product, id: string, cls: string, day: Date)
    requires DistinctBy(v.bindings, IdOf) && p in v.products && id in UsedBy(p)
    requires BoundTo(Index(v.bindings), id, cls, p.exchange, day)
    ensures RoleUsed(v, (cls, p.exchange)) && id in Keys(v.bindings, IdOf)
  {
    hide Index;
    IndexExact(v.bindings);
    var b := Index(v.bindings)[id];
    assert RoleOf(b) == (cls, p.exchange) && b.id == id;
  }

  /** Each product uses a market, a reference and a specification binding of its exchange. */
  lemma ProductRoles(v: View, p: Product)
    requires PartsValid(v) && p in v.products
    ensures RoleUsed(v, (MARKET_DAILY, p.exchange)) && RoleUsed(v, (REFERENCE_OPEN, p.exchange)) && RoleUsed(v, (CONTRACT_SPEC, p.exchange))
    ensures UsedBy(p) <= Keys(v.bindings, IdOf)
  {
    hide HeaderValid, BindingsValid, TenProducts, Index, RoleUsed, BoundTo, Keys, FrozenOf, IsContractOf, BelongsTo, Aligned, IsSha256;
    var h := v.header;
    var execution := h.execution;
    PlacedDays(h);
    IdsDistinct(h, v.bindings);
    BoundRole(v, p, p.reference.binding, REFERENCE_OPEN, execution);
    BoundRole(v, p, p.spec.binding, CONTRACT_SPEC, execution);
    DailyRoles(v, p);
  }

  lemma DailyRoles(v: View, p: Product)
    requires PartsValid(v) && p in v.products
    ensures RoleUsed(v, (MARKET_DAILY, p.exchange)) && DailyBindings(p.daily) <= Keys(v.bindings, IdOf)
  {
    hide HeaderValid, BindingsValid, TenProducts, Index, RoleUsed, BoundTo, Keys, FrozenOf, ReferenceValid, SpecValid, ContractValid;
    var h := v.header;
    PlacedDays(h);
    IdsDistinct(h, v.bindings);
    forall d | d in p.daily ensures d.binding in Keys(v.bindings, IdOf) && RoleUsed(v, (MARKET_DAILY, p.exchange)) {
      var i :| 0 <= i < |p.daily| && p.daily[i] == d;
      assert DayValid(RulesOf(h, Index(v.bindings), p), p.daily[i]);
      BoundRole(v, p, d.binding, MARKET_DAILY, d.day);
    }
    SortPermutes(CanonicalDays(p.daily), DayLeq);
    assert |p.daily| == |History(h)|;
    assert p.daily[0] in p.daily;
  }

  lemma AmongTen(products: seq<Product>, name: string)
    requires TenProducts(products) && name in Book.PRODUCTS
    ensures name in SortBy(NamesOf(products), TextLeq)
  {
    hide SortBy, NamesOf, TextLeq;
  }

  lemma ProductPresent(products: seq<Product>, name: string) returns (p: Product)
    requires TenProducts(products) && name in Book.PRODUCTS
    ensures p in products && p.name == name
  {
    hide TextLeq, TenProducts, SortBy;
    AmongTen(products, name);
    SortPermutes(NamesOf(products), TextLeq);
    var i :| 0 <= i < |products| && NamesOf(products)[i] == name;
    p := products[i];
  }

  lemma ExchangeOf(v: View, p: Product)
    requires PartsValid(v) && p in v.products
    ensures (p.name == "ag" ==> p.exchange == SHFE) && (p.name == "sc" ==> p.exchange == INE)
  {
    hide HeaderValid, BindingsValid, TenProducts, Index, HistoryValid, ReferenceValid, SpecValid;
    PlacedDays(v.header);
  }

  lemma EveryRoleUsed(v: View)
    requires PartsValid(v)
    ensures forall role :: role in Roles() ==> RoleUsed(v, role)
    ensures CalendarIds(v.bindings) + ProductBindings(v.products) <= Keys(v.bindings, IdOf)
  {
    hide PartsValid, UsedBy;
    var silver := ProductNamedIn(v, "ag");
    var oil := ProductNamedIn(v, "sc");
    ProductRoles(v, silver);
    ProductRoles(v, oil);
    CalendarRole(v);
    forall p | p in v.products ensures UsedBy(p) <= Keys(v.bindings, IdOf) { ProductRoles(v, p); }
  }

  lemma ProductNamedIn(v: View, name: string) returns (p: Product)
    requires PartsValid(v) && name in Book.PRODUCTS
    ensures p in v.products && p.name == name
    ensures (name == "ag" ==> p.exchange == SHFE) && (name == "sc" ==> p.exchange == INE)
  {
    hide HeaderValid, BindingsValid, ProductsValid;
    p := ProductPresent(v.products, name);
    ExchangeOf(v, p);
  }

  lemma CalendarRole(v: View)
    requires PartsValid(v)
    ensures RoleUsed(v, (CALENDAR, BOTH))
  {
    hide HeaderValid, ProductsValid, IsStableId, IsSha256, CalendarCovers, Timely, ProductBindings;
    PlacedDays(v.header);
    var c :| c in v.bindings && c.cls == CALENDAR;
    assert BindingValid(c, v.header.generatedAt) && RoleOf(c) == (CALENDAR, BOTH);
  }

  lemma BindingUsed(v: View, b: Binding)
    requires DistinctBy(v.bindings, RoleOf) && b in v.bindings && RoleUsed(v, RoleOf(b))
    ensures b.id in CalendarIds(v.bindings) + ProductBindings(v.products)
  {
    hide CalendarIds, ProductBindings;
    DistinctTellsApart(v.bindings, RoleOf);
  }

  lemma BindingRoles(h: Header, bindings: seq<Binding>)
    requires DaysPlaced(h) && BindingsValid(h, bindings)
    ensures DistinctBy(bindings, RoleOf) && forall b :: b in bindings ==> RoleOf(b) in Roles()
  {
    hide BindingValid, Timely, CalendarCovers, DaysPlaced, Roles;
    forall b | b in bindings ensures RoleOf(b) in Roles() { RoleListed(b, h.generatedAt); }
  }

  lemma UsedRoleKnown(v: View, role: (string, string))
    requires RoleUsed(v, role)
    ensures role in Keys(v.bindings, RoleOf)
  {}

  /**
   Once its parts are valid, a view has exactly seven bindings, one for each role, and uses all of them: the last
   check never refuses, and neither does the limit on the number of bindings.
   */
  lemma SevenBindings(v: View)
    requires PartsValid(v)
    ensures |v.bindings| == 7 && Keys(v.bindings, RoleOf) == Roles()
    ensures EveryBindingUsed(v)
  {
    hide HeaderValid, ProductsValid, TenProducts, BindingsValid, CalendarIds, ProductBindings, Roles, RoleUsed, DistinctBy;
    PlacedDays(v.header);
    EveryRoleUsed(v);
    BindingRoles(v.header, v.bindings);
    forall b | b in v.bindings ensures b.id in CalendarIds(v.bindings) + ProductBindings(v.products) { BindingUsed(v, b); }
    forall role | role in Roles() ensures role in Keys(v.bindings, RoleOf) { UsedRoleKnown(v, role); }
    assert Keys(v.bindings, RoleOf) == Roles();
    SevenRoles();
    DistinctIffCounted(v.bindings, RoleOf);
    assert Keys(v.bindings, IdOf) == CalendarIds(v.bindings) + ProductBindings(v.products);
  }

  // ---------------------------------------------------------------- what an accepted view knows, and when

  lemma IndexedBinding(v: View, id: string)
    requires HeaderValid(v.header) && DaysPlaced(v.header) && BindingsValid(v.header, v.bindings) && id in Index(v.bindings)
    ensures Index(v.bindings)[id] in v.bindings && Index(v.bindings)[id].id == id
  {
    hide HeaderValid, DaysPlaced;
    IndexExact(v.bindings);
  }

  /**
   No look-ahead: every binding was cut off and generated by the view's cutoff, which is not after its generation; every
   daily row lies on or before the research day, in the window of a market binding of its exchange that was not queried
   past that day; and every reference price was observed by the cutoff.
   */
  lemma NoLookAhead(v: View, p: Product, d: Daily)
    requires ViewValid(v) && p in v.products && d in p.daily
    ensures v.header.cutoffAt <= v.header.generatedAt && v.header.research < v.header.execution
    ensures v.header.research / 100 != v.header.execution / 100
    ensures forall b :: b in v.bindings ==> b.cutoffAt <= b.generatedAt <= v.header.cutoffAt
    ensures d.day <= v.header.research
    ensures exists b :: (
      && b in v.bindings && b.id == d.binding && b.cls == MARKET_DAILY && b.scope == p.exchange
      && b.queryStart <= d.day <= b.queryEnd <= v.header.research)
    ensures p.reference.observedAt <= v.header.cutoffAt
  {
    hide Index, TenProducts, IsSha256, IsStableId, BelongsTo, Ascending, DaysPlaced, History, IsContractOf, SpecValid, FrozenOf,
      ContractValid, Canonical, ProductsValid, EveryBindingUsed;
    PlacedDays(v.header);
    PartProduct(v, p);
    var i :| 0 <= i < |p.daily| && p.daily[i] == d;
    assert DayValid(RulesOf(v.header, Index(v.bindings), p), p.daily[i]);
    IndexedBinding(v, d.binding);
  }

  lemma PartProduct(v: View, p: Product)
    requires PartsValid(v) && p in v.products
    ensures DaysPlaced(v.header) && ProductValid(v.header, Index(v.bindings), p)
  {
    hide HeaderValid, BindingsValid, TenProducts, Index, ProductValid;
    PlacedDays(v.header);
  }

  /** A binding of the view of that id and class, for the exchange, whose window has the day in it. */
  ghost predicate Vouches(v: View, id: string, cls: string, exchange: string, day: Date) {
    exists b :: b in v.bindings && b.id == id && b.cls == cls && b.scope == exchange && b.queryStart <= day <= b.queryEnd
  }

  /**
   The terms of a product of an accepted view: traded on its frozen exchange with its frozen multiplier and tick, an open
   above zero and of whole ticks, prices never negative, delivery months as the names spell them, and reference and
   specification vouched for on the execution day.
   */
  lemma ProductTerms(v: View, p: Product)
    requires ViewValid(v) && p in v.products
    ensures p.name in FROZEN && p.exchange == FROZEN[p.name].exchange && p.spec.multiplier == FROZEN[p.name].multiplier
    ensures p.spec.tick > 0.0 && -0.000000000001 <= p.spec.tick - FROZEN[p.name].tick <= 0.000000000001
    ensures p.reference.open > 0.0 && exists k: int :: WholeTicks(p.reference.open, p.spec.tick, k)
    ensures forall d, c :: d in p.daily && c in d.contracts ==>
      && c.settlement >= 0.0 && c.openInterest >= 0.0
      && IsContractOf(c.name, p.name, p.exchange) && DeliveryMonth(c.name) == Some(c.delivery)
    ensures IsContractOf(p.reference.contract, p.name, p.exchange) && IsContractOf(p.spec.contract, p.name, p.exchange)
    ensures Vouches(v, p.reference.binding, REFERENCE_OPEN, p.exchange, v.header.execution)
    ensures Vouches(v, p.spec.binding, CONTRACT_SPEC, p.exchange, v.header.execution)
  {
    hide Index, TenProducts, HeaderValid, BindingsValid, BelongsTo, DaysPlaced, History, IsSha256, ProductsValid, EveryBindingUsed,
      Aligned, WholeTicks, IsContractOf, DeliveryMonth, Canonical;
    PlacedDays(v.header);
    PartProduct(v, p);
    AlignedExactly(p.reference.open, p.spec.tick);
    IndexedBinding(v, p.reference.binding);
    IndexedBinding(v, p.spec.binding);
    forall d, c | d in p.daily && c in d.contracts ensures ContractValid(RulesOf(v.header, Index(v.bindings), p), c) {
      var i :| 0 <= i < |p.daily| && p.daily[i] == d;
      assert DayValid(RulesOf(v.header, Index(v.bindings), p), p.daily[i]);
    }
  }

  /** The one calendar reaches from the first official day to the one after the execution day. */
  lemma CalendarSpans(v: View)
    requires ViewValid(v)
    ensures exists b, k: nat :: (
      && b in v.bindings && b.cls == CALENDAR && k + 1 < |v.header.days| && v.header.days[k] == v.header.execution
      && b.queryStart <= v.header.days[0] && v.header.days[k + 1] <= b.queryEnd)
  {
    hide HeaderValid, ProductsValid, TenProducts, EachValid, EachTimely, EveryBindingUsed;
    PlacedDays(v.header);
    var b :| b in v.bindings && b.cls == CALENDAR && CalendarCovers(v.header, b);
    var k := Position(v.header.days, v.header.execution);
    assert v.header.days[k + 1] == DayAfter(v.header);
  }

  /** Every id and digest an accepted view carries has its shape. */
  lemma ShapesHold(v: View)
    requires ViewValid(v)
    ensures IsStableId(v.header.id) && IsSha256(v.header.receipt)
    ensures forall b :: b in v.bindings ==>
      IsStableId(b.id) && IsStableId(b.identity) && IsSha256(b.raw) && IsSha256(b.lineage) && IsSha256(b.receipt)
    ensures forall p :: p in v.products ==> IsSha256(p.reference.raw) && IsSha256(p.spec.raw)
  {
    hide Index, TenProducts, IsSha256, IsStableId, BelongsTo, Ascending, DaysPlaced, History, IsContractOf, FrozenOf, ProductsValid,
      EveryBindingUsed, HistoryValid, Aligned, BoundTo;
    PlacedDays(v.header);
    forall p | p in v.products ensures IsSha256(p.reference.raw) && IsSha256(p.spec.raw) { PartProduct(v, p); }
  }

  /**
   A product of an accepted view has all official days up to the research day, at least 127 of them, so the signal's own
   warm-up check never refuses it.
   */
  lemma WarmupNeverRefuses(v: View, p: Product)
    requires ViewValid(v) && p in v.products
    ensures var days := Canonical(p.daily);
      && |days| >= 127 && |days| <= |v.header.days| && days[|days| - 1].day == v.header.research
      && (forall i :: 0 <= i < |days| ==> days[i].day == v.header.days[i])
      && |days| > RollIndex.WARMUP
  {
    hide Index, TenProducts, IsSha256, IsStableId, BelongsTo, Ascending, IsContractOf, SpecValid, ReferenceValid, FrozenOf,
      ContractValid, ProductsValid, EveryBindingUsed, Canonical, RollIndex.Indexable;
    PlacedDays(v.header);
    PartProduct(v, p);
    var days := Canonical(p.daily);
    assert DaysOf(days) == History(v.header);
    assert forall i :: 0 <= i < |days| ==> days[i].day == DaysOf(days)[i];
  }

  /** The first instant of a China day. */
  function Midnight(day: int): Time { day * DAY - CHINA_OFFSET }

  lemma DayOfInstant(t: Time, day: int)
    ensures LocalDate(t) == day <==> Midnight(day) <= t < Midnight(day + 1)
    ensures LocalDate(t) == day ==> (LocalSecond(t) >= 72000 <==> Midnight(day) + 20 * 3600 * SECOND <= t)
  {}

  predicate OnDayOrEvening(t: Time, at: int, before: int) {
    || Midnight(at) <= t < Midnight(at + 1)
    || Midnight(before) + 20 * 3600 * SECOND <= t < Midnight(before + 1)
  }

  /**
   The instants that belong to an execution day: the whole China day of that date, and the last four hours of the China
   day of the official day before it, however long ago that was.
   */
  lemma BelongsExactly(t: Time, execution: Date, days: seq<Date>, at: int, before: int)
    requires Ascending(days) && execution in days && CivilDate(at) == execution
    requires Position(days, execution) > 0 && CivilDate(before) == days[Position(days, execution) - 1]
    ensures BelongsTo(t, execution, days) <==> OnDayOrEvening(t, at, before)
  {
    hide CivilDate, LocalDate, LocalSecond;
    var own := LocalDate(t);
    DayOfInstant(t, at);
    DayOfInstant(t, before);
    SameDateSameDay(own, at);
    SameDateSameDay(own, before);
  }

  lemma SameDateSameDay(a: int, b: int)
    ensures CivilDate(a) == CivilDate(b) <==> a == b
  {
    hide CivilDate;
    if a < b {
      CivilIncreases(a, b);
    } else if b < a {
      CivilIncreases(b, a);
    }
  }

  /** An accepted view was generated, and its reference prices observed, in those instants of its own execution day. */
  lemma GeneratedOnExecutionDay(v: View, p: Product, at: int, before: int)
    requires ViewValid(v) && p in v.products && CivilDate(at) == v.header.execution
    requires v.header.execution in v.header.days
    requires Position(v.header.days, v.header.execution) > 0
    requires CivilDate(before) == v.header.days[Position(v.header.days, v.header.execution) - 1]
    ensures OnDayOrEvening(v.header.generatedAt, at, before) && OnDayOrEvening(p.reference.observedAt, at, before)
  {
    hide CivilDate, Index, TenProducts, IsSha256, IsStableId, DaysPlaced, History, IsContractOf, SpecValid, FrozenOf,
      ProductsValid, EveryBindingUsed, HistoryValid, BelongsTo, Ascending;
    PlacedDays(v.header);
    PartProduct(v, p);
    BelongsExactly(v.header.generatedAt, v.header.execution, v.header.days, at, before);
    BelongsExactly(p.reference.observedAt, v.header.execution, v.header.days, at, before);
  }

  /** The price is `k` ticks, to within 1e-9 of a tick. */
  predicate WholeTicks(price: real, tick: real, k: int)
    requires tick > 0.0
  {
    -0.000000001 <= price / tick - k as real <= 0.000000001
  }

  /** A price counts as aligned exactly when it is some whole number of ticks. */
  lemma AlignedExactly(price: real, tick: real)
    requires tick > 0.0
    ensures Aligned(price, tick) <==> exists k: int :: WholeTicks(price, tick, k)
  {
    if Aligned(price, tick) {
      assert WholeTicks(price, tick, RoundHalfEven(price / tick));
    }
    if k: int :| WholeTicks(price, tick, k) {
      NearestIs(price / tick, k);
    }
  }

  lemma NearestIs(x: real, k: int)
    requires -0.000000001 <= x - k as real <= 0.000000001
    ensures RoundHalfEven(x) == k
  {}
}
