/**
 * The view logic of the dashboard script: the continent column added to the
 * prepared table, the sidebar filter (continents, devices, date range), the
 * key metrics (total revenue, unique users) and the grouped tables behind the
 * charts (sales trend, top categories, device-by-continent heatmap, funnel).
 */
module Dashboard {
  import opened Wrappers
  import opened Tables
  import opened Preprocessing

  const Purchase: string := "purchase"
  const UnknownContinent: string := "Unknown"

  /** The dashboard's own table from continent code to continent name. */
  const ContinentNames: map<string, string> :=
    map["AF" := "Africa", "AS" := "Asia", "EU" := "Europe", "NA" := "North America",
        "SA" := "South America", "OC" := "Oceania", "AN" := "Antarctica"]

  /** Every value the continent column can take. */
  const ContinentLabels: set<string> :=
    {"Africa", "Asia", "Europe", "North America", "South America", "Oceania", "Antarctica", "Unknown"}

  // ---------------------------------------------------------------- continent column

  /**
   * The continent of an alpha-2 country code. `lookup` is the geography
   * library's country-to-continent-code conversion, `None` where it raises.
   * Total: a failed lookup, or a code missing from the table, gives "Unknown".
   */
  function GetContinent(lookup: string -> Option<string>, code: string): (name: string)
    ensures name in ContinentLabels
    ensures name == UnknownContinent <==> lookup(code).None? || lookup(code).value !in ContinentNames
    ensures lookup(code).Some? && lookup(code).value in ContinentNames ==>
      name == ContinentNames[lookup(code).value]
  {
    match lookup(code)
    case None => UnknownContinent
    case Some(cc) => if cc in ContinentNames then ContinentNames[cc] else UnknownContinent
  }

  /** A missing country cannot be converted either: the lookup raises and the fallback applies. */
  function ContinentOf(lookup: string -> Option<string>, country: Option<string>): (name: string)
    ensures name in ContinentLabels
    ensures country.None? ==> name == UnknownContinent
    ensures country.Some? ==> name == GetContinent(lookup, country.value)
  {
    match country
    case None => UnknownContinent
    case Some(code) => GetContinent(lookup, code)
  }

  /** A prepared row with its continent. */
  datatype ViewRow = ViewRow(row: Row, continent: string)

  /** Adds the `continent` column: same rows in the same order, each with the continent of its country. */
  function AddContinent(lookup: string -> Option<string>, t: seq<Row>): (v: seq<ViewRow>)
    ensures |v| == |t|
    ensures forall i :: 0 <= i < |t| ==>
      v[i].row == t[i] && v[i].continent == ContinentOf(lookup, t[i].country)
    ensures forall x :: x in v ==> x.continent in ContinentLabels
  {
    seq(|t|, i requires 0 <= i < |t| => ViewRow(t[i], ContinentOf(lookup, t[i].country)))
  }

  // ---------------------------------------------------------------- sidebar filter

  /**
   * The date range from the date picker: its first date, and its second or
   * else the first again. An empty pick (the script indexes it and stops) is `None`.
   */
  function DateBounds(picked: seq<int>): (r: Option<(int, int)>)
    ensures r.None? <==> picked == []
    ensures r.Some? ==> r.value.0 == picked[0]
    ensures |picked| == 1 ==> r.value.1 == picked[0]
    ensures |picked| >= 2 ==> r.value.1 == picked[1]
  {
    if picked == [] then None
    else Some((picked[0], if |picked| > 1 then picked[1] else picked[0]))
  }

  predicate Selected(x: ViewRow, continents: seq<string>, devices: seq<string>, start: int, end: int)
  {
    x.continent in continents && x.row.device in devices && start <= x.row.dateDay <= end
  }

  /**
   * The filtered view: the rows whose continent and device are selected and
   * whose day lies in [start, end], in table order, each with its multiplicity.
   */
  function FilterView(v: seq<ViewRow>, continents: seq<string>, devices: seq<string>, start: int, end: int)
    : (r: seq<ViewRow>)
    ensures Subseq(r, v)
    ensures forall x :: x in r <==>
      x in v && x.continent in continents && x.row.device in devices && start <= x.row.dateDay <= end
    ensures forall x :: multiset(r)[x] == if Selected(x, continents, devices, start, end) then multiset(v)[x] else 0
  {
    Filter(v, (x: ViewRow) => Selected(x, continents, devices, start, end))
  }

  /** Picking a single date keeps exactly the selected rows of that day. */
  lemma SingleDateView(v: seq<ViewRow>, continents: seq<string>, devices: seq<string>, day: int)
    ensures DateBounds([day]) == Some((day, day))
    ensures forall x :: x in FilterView(v, continents, devices, day, day) <==>
      x in v && x.continent in continents && x.row.device in devices && x.row.dateDay == day
  {
  }

  function DeviceOf(x: ViewRow): string
  {
    x.row.device
  }

  /** The device picker's default: every device of the table, each listed once, and nothing else. */
  function DefaultDevices(v: seq<ViewRow>): (ds: seq<string>)
    ensures NoDup(ds)
    ensures forall x :: x in v ==> x.row.device in ds
    ensures forall d :: d in ds ==> exists x :: x in v && x.row.device == d
  {
    MapElements(v, DeviceOf);
    Distinct(Map(v, DeviceOf))
  }

  /** The earliest day of the table, the date picker's default start. */
  function FirstDay(v: seq<ViewRow>): (d: int)
    requires v != []
    ensures exists x :: x in v && x.row.dateDay == d
    ensures forall x :: x in v ==> d <= x.row.dateDay
  {
    if |v| == 1 then v[0].row.dateDay
    else
      var rest := FirstDay(v[1..]);
      assert forall x :: x in v <==> x == v[0] || x in v[1..];
      if v[0].row.dateDay <= rest then v[0].row.dateDay else rest
  }

  /** The latest day of the table, the date picker's default end. */
  function LastDay(v: seq<ViewRow>): (d: int)
    requires v != []
    ensures exists x :: x in v && x.row.dateDay == d
    ensures forall x :: x in v ==> x.row.dateDay <= d
  {
    if |v| == 1 then v[0].row.dateDay
    else
      var rest := LastDay(v[1..]);
      assert forall x :: x in v <==> x == v[0] || x in v[1..];
      if v[0].row.dateDay >= rest then v[0].row.dateDay else rest
  }

  /** With the default devices and dates, the filter selects by continent alone. */
  lemma DefaultFilterSelectsByContinent(v: seq<ViewRow>, continents: seq<string>)
    requires v != []
    ensures forall x :: x in FilterView(v, continents, DefaultDevices(v), FirstDay(v), LastDay(v)) <==>
      x in v && x.continent in continents
  {
  }

  // ---------------------------------------------------------------- key metrics

  predicate IsPurchase(x: ViewRow)
  {
    x.row.eventType == Purchase
  }

  /** The purchase rows of a view, in order. */
  function Purchases(v: seq<ViewRow>): (p: seq<ViewRow>)
    ensures Subseq(p, v)
    ensures forall x :: x in p <==> x in v && x.row.eventType == Purchase
    ensures forall x :: multiset(p)[x] == if x.row.eventType == Purchase then multiset(v)[x] else 0
  {
    Filter(v, IsPurchase)
  }

  /** A row's price; a missing price adds nothing to a sum. */
  function PriceOf(x: ViewRow): int
  {
    x.row.priceInUsd.GetOr(0)
  }

  function SumPrices(rows: seq<ViewRow>): int
  {
    if rows == [] then 0 else PriceOf(rows[0]) + SumPrices(rows[1..])
  }

  lemma {:induction false} SumPricesAppend(a: seq<ViewRow>, b: seq<ViewRow>)
    ensures SumPrices(a + b) == SumPrices(a) + SumPrices(b)
  {
    if a == [] {
      assert a + b == b;
    } else {
      assert (a + b)[1..] == a[1..] + b;
      SumPricesAppend(a[1..], b);
    }
  }

  /** Total revenue: the sum of the purchase rows' prices; 0 when the view has no purchase. */
  function Revenue(v: seq<ViewRow>): (total: int)
    ensures (forall x :: x in v ==> x.row.eventType != Purchase) ==> total == 0
  {
    SumPrices(Purchases(v))
  }

  /** Revenue adds up over a split of the view. */
  lemma RevenueAppend(a: seq<ViewRow>, b: seq<ViewRow>)
    ensures Revenue(a + b) == Revenue(a) + Revenue(b)
  {
    FilterAppend(a, b, IsPurchase);
    SumPricesAppend(Purchases(a), Purchases(b));
  }

  /** The revenue of a one-row view is that row's price if it is a purchase, else 0. */
  lemma RevenueSingle(x: ViewRow)
    ensures Revenue([x]) == if x.row.eventType == Purchase then x.row.priceInUsd.GetOr(0) else 0
  {
    assert [x][1..] == [];
    assert Filter([x], IsPurchase) == if IsPurchase(x) then [x] else [];
    assert SumPrices([x]) == PriceOf(x) + SumPrices([x][1..]);
  }

  function UserOf(x: ViewRow): int
  {
    x.row.userId
  }

  /** Unique users: the number of distinct user ids in the view; 0 only for an empty view. */
  function UniqueUsers(v: seq<ViewRow>): (n: nat)
    ensures n == |set x | x in v :: x.row.userId|
    ensures n <= |v|
    ensures n == 0 <==> v == []
  {
    var users := Map(v, UserOf);
    DistinctCard(users);
    MapElements(v, UserOf);
    assert Elements(users) == set x | x in v :: x.row.userId;
    assert v != [] ==> users[0] in Distinct(users);
    |Distinct(users)|
  }

  // ---------------------------------------------------------------- grouped tables

  function TypeOf(x: ViewRow): string
  {
    x.row.eventType
  }

  /**
   * The funnel: one row per event type present in the view, with the number
   * of rows of that type; no row is 0 and the rows add up to the view's size.
   */
  function Funnel(v: seq<ViewRow>): (g: seq<Pair<string>>)
    ensures NoDup(KeysOf(g))
    ensures forall ty :: ty in KeysOf(g) <==> exists x :: x in v && x.row.eventType == ty
    ensures forall i :: 0 <= i < |g| ==> g[i].value == Count(Map(v, TypeOf), g[i].key) > 0
    ensures Totals(g) == |v|
  {
    MapElements(v, TypeOf);
    GroupCount(Map(v, TypeOf))
  }

  function CategoryOf(x: ViewRow): string
  {
    x.row.category
  }

  /**
   * Top categories: one row per category bought in the view, with the number
   * of its purchase rows; the rows add up to the number of purchase rows.
   */
  function CategoryCounts(v: seq<ViewRow>): (g: seq<Pair<string>>)
    ensures NoDup(KeysOf(g))
    ensures forall c :: c in KeysOf(g) <==> exists x :: x in v && x.row.eventType == Purchase && x.row.category == c
    ensures forall i :: 0 <= i < |g| ==> g[i].value == Count(Map(Purchases(v), CategoryOf), g[i].key) > 0
    ensures Totals(g) == |Purchases(v)|
  {
    MapElements(Purchases(v), CategoryOf);
    GroupCount(Map(Purchases(v), CategoryOf))
  }

  function CellOf(x: ViewRow): (string, string)
  {
    (x.continent, x.row.device)
  }

  /**
   * The heatmap: one cell per (continent, device) pair present in the view,
   * with its number of rows; the cells add up to the view's size.
   */
  function Heatmap(v: seq<ViewRow>): (g: seq<Pair<(string, string)>>)
    ensures NoDup(KeysOf(g))
    ensures forall k :: k in KeysOf(g) <==> exists x :: x in v && (x.continent, x.row.device) == k
    ensures forall i :: 0 <= i < |g| ==> g[i].value == Count(Map(v, CellOf), g[i].key) > 0
    ensures Totals(g) == |v|
  {
    MapElements(v, CellOf);
    GroupCount(Map(v, CellOf))
  }

  function TrendEntry(x: ViewRow): Pair<(int, string)>
  {
    Pair((x.row.dateDay, x.row.device), PriceOf(x))
  }

  lemma {:induction false} TrendEntriesTotal(p: seq<ViewRow>)
    ensures Totals(Map(p, TrendEntry)) == SumPrices(p)
  {
    if p != [] {
      TrendEntriesTotal(p[1..]);
      assert Map(p, TrendEntry)[1..] == Map(p[1..], TrendEntry);
    }
  }

  lemma TrendKeys(p: seq<ViewRow>)
    ensures forall k :: k in KeysOf(Map(p, TrendEntry)) <==> exists x :: x in p && (x.row.dateDay, x.row.device) == k
  {
    var ks := KeysOf(Map(p, TrendEntry));
    forall k | k in ks ensures exists x :: x in p && (x.row.dateDay, x.row.device) == k {
      var i :| 0 <= i < |ks| && ks[i] == k;
      assert p[i] in p && (p[i].row.dateDay, p[i].row.device) == k;
    }
    forall x | x in p ensures (x.row.dateDay, x.row.device) in ks {
      var i :| 0 <= i < |p| && p[i] == x;
      assert ks[i] == (x.row.dateDay, x.row.device);
    }
  }

  /** The rows of a view on one (day, device) point of the trend. */
  function PointRows(v: seq<ViewRow>, k: (int, string)): (r: seq<ViewRow>)
    ensures forall x :: x in r <==> x in v && (x.row.dateDay, x.row.device) == k
  {
    Filter(v, (x: ViewRow) => (x.row.dateDay, x.row.device) == k)
  }

  /** Revenue of a view with one more row in front. */
  lemma RevenueCons(x: ViewRow, q: seq<ViewRow>)
    ensures Revenue([x] + q) == (if IsPurchase(x) then PriceOf(x) else 0) + Revenue(q)
  {
    assert ([x] + q)[0] == x && ([x] + q)[1..] == q;
    if IsPurchase(x) {
      assert Purchases([x] + q) == [x] + Purchases(q);
      assert ([x] + Purchases(q))[1..] == Purchases(q);
    }
  }

  /** The per-key trend sum of a view with one more row in front. */
  lemma TrendSumCons(v: seq<ViewRow>, k: (int, string))
    requires v != []
    ensures SumFor(Map(Purchases(v), TrendEntry), k) ==
      (if IsPurchase(v[0]) && (v[0].row.dateDay, v[0].row.device) == k then PriceOf(v[0]) else 0)
      + SumFor(Map(Purchases(v[1..]), TrendEntry), k)
  {
    var x := v[0];
    var p := Purchases(v[1..]);
    assert Purchases(v) == if IsPurchase(x) then [x] + p else p;
    if IsPurchase(x) {
      var m := Map([x] + p, TrendEntry);
      assert m[0] == TrendEntry(x) && m[1..] == Map(p, TrendEntry);
    }
  }

  /** Summing the trend entries of one key is taking the revenue of that point's rows. */
  lemma {:induction false} TrendPointSum(v: seq<ViewRow>, k: (int, string))
    ensures SumFor(Map(Purchases(v), TrendEntry), k) == Revenue(PointRows(v, k))
  {
    if v != [] {
      TrendPointSum(v[1..], k);
      TrendSumCons(v, k);
      var x := v[0];
      var q := PointRows(v[1..], k);
      assert PointRows(v, k) == if (x.row.dateDay, x.row.device) == k then [x] + q else q;
      RevenueCons(x, q);
    }
  }

  /**
   * The sales trend: one point per (day, device) with purchases in the view,
   * holding the revenue of that point's rows; the points add up to the total revenue.
   */
  function SalesTrend(v: seq<ViewRow>): (g: seq<Pair<(int, string)>>)
    ensures NoDup(KeysOf(g))
    ensures forall k :: k in KeysOf(g) <==>
      exists x :: x in v && x.row.eventType == Purchase && (x.row.dateDay, x.row.device) == k
    ensures forall i :: 0 <= i < |g| ==> g[i].value == Revenue(PointRows(v, g[i].key))
    ensures Totals(g) == Revenue(v)
  {
    TrendKeys(Purchases(v));
    TrendEntriesTotal(Purchases(v));
    var g := GroupSum(Map(Purchases(v), TrendEntry));
    forall i | 0 <= i < |g| ensures g[i].value == Revenue(PointRows(v, g[i].key)) {
      TrendPointSum(v, g[i].key);
    }
    g
  }

  /** A selection that matches nothing gives zero metrics and empty grouped tables. */
  lemma EmptySelection(v: seq<ViewRow>, continents: seq<string>, devices: seq<string>, start: int, end: int)
    requires FilterView(v, continents, devices, start, end) == []
    ensures var f := FilterView(v, continents, devices, start, end);
      && Revenue(f) == 0 && UniqueUsers(f) == 0
      && SalesTrend(f) == [] && CategoryCounts(f) == [] && Heatmap(f) == [] && Funnel(f) == []
  {
  }
}
