/**
 * The preparation script: merge the events with the product catalog, drop the
 * catalog's `variant` and `id` columns, default a missing country to "UNK",
 * derive the calendar day of each event, pivot a day-by-type histogram of
 * event counts, pick as cutoff the latest day without any add-to-cart event,
 * and keep only the rows of the days after the cutoff.
 *
 * Timestamps are integer seconds, days are integer day numbers (day d covers
 * the seconds [d * 86400, (d + 1) * 86400)), prices are integers.
 */
module Preprocessing {
  import opened Wrappers
  import opened Tables

  const SecondsPerDay: int := 86400
  const AddToCart: string := "add_to_cart"
  const UnknownCountry: string := "UNK"

  /** A row of the events table. */
  datatype Event = Event(itemId: int, eventType: string, date: int, country: Option<string>,
                         device: string, userId: int, priceInUsd: Option<int>)

  /** A row of the product catalog. */
  datatype Item = Item(id: int, category: string, brand: string, variant: string)

  /** A row of the merged table: the columns of an event beside those of its catalog item. */
  datatype Joined = Joined(event: Event, item: Item)

  /** A merged row once `variant` and `id` are dropped. */
  datatype Cleaned = Cleaned(itemId: int, eventType: string, date: int, country: Option<string>,
                             device: string, userId: int, priceInUsd: Option<int>,
                             category: string, brand: string)

  /** A cleaned row with the calendar day of its timestamp: the row of the output table. */
  datatype Row = Row(itemId: int, eventType: string, date: int, country: Option<string>,
                     device: string, userId: int, priceInUsd: Option<int>,
                     category: string, brand: string, dateDay: int)

  // ---------------------------------------------------------------- join

  /** The merged rows that one event contributes: one per catalog item carrying its id. */
  function Matches(e: Event, items: seq<Item>): (r: seq<Joined>)
    ensures forall j :: j in r <==> j.event == e && j.item in items && j.item.id == e.itemId
  {
    if items == [] then []
    else
      var rest := Matches(e, items[1..]);
      assert forall it :: it in items <==> it == items[0] || it in items[1..];
      if items[0].id == e.itemId then [Joined(e, items[0])] + rest else rest
  }

  /**
   * Inner join of events with catalog items on `itemId == id`, in event order:
   * a merged row pairs an event with a catalog item of the same id, and every
   * such pair is present; an event without a matching item yields no row.
   */
  function Join(events: seq<Event>, items: seq<Item>): (r: seq<Joined>)
    ensures forall j :: j in r <==> j.event in events && j.item in items && j.item.id == j.event.itemId
  {
    if events == [] then []
    else
      assert forall e :: e in events <==> e == events[0] || e in events[1..];
      Matches(events[0], items) + Join(events[1..], items)
  }

  predicate HasMatch(e: Event, items: seq<Item>)
  {
    exists it :: it in items && it.id == e.itemId
  }

  predicate UniqueIds(items: seq<Item>)
  {
    forall i, j :: 0 <= i < j < |items| ==> items[i].id != items[j].id
  }

  function EventOf(j: Joined): Event
  {
    j.event
  }

  lemma {:induction false} MatchesOfUnique(e: Event, items: seq<Item>)
    requires UniqueIds(items)
    ensures Map(Matches(e, items), EventOf) == if HasMatch(e, items) then [e] else []
  {
    var m := Matches(e, items);
    if items != [] {
      assert UniqueIds(items[1..]);
      MatchesOfUnique(e, items[1..]);
      if items[0].id == e.itemId {
        assert !HasMatch(e, items[1..]) by {
          forall it | it in items[1..] ensures it.id != e.itemId {
            var k :| 0 <= k < |items[1..]| && items[1..][k] == it;
            assert items[k + 1] == it;
          }
        }
      } else {
        assert HasMatch(e, items) <==> HasMatch(e, items[1..]) by {
          assert forall it :: it in items <==> it == items[0] || it in items[1..];
        }
      }
    }
  }

  /**
   * With unique catalog ids, the merge yields exactly one row per event that
   * has a matching item, in event order; so it is never longer than the events table.
   */
  lemma {:induction false} JoinOneRowPerMatchedEvent(events: seq<Event>, items: seq<Item>)
    requires UniqueIds(items)
    ensures Map(Join(events, items), EventOf) == Filter(events, e => HasMatch(e, items))
    ensures |Join(events, items)| <= |events|
  {
    if events != [] {
      JoinOneRowPerMatchedEvent(events[1..], items);
      MatchesOfUnique(events[0], items);
      MapAppend(Matches(events[0], items), Join(events[1..], items), EventOf);
    }
  }

  // ---------------------------------------------------------------- cleaning

  function DropIdAndVariant(j: Joined): Cleaned
  {
    var e, it := j.event, j.item;
    Cleaned(e.itemId, e.eventType, e.date, e.country, e.device, e.userId, e.priceInUsd,
            it.category, it.brand)
  }

  /** Drops the catalog's `variant` and `id` columns; every other column keeps its value. */
  function DropItemColumns(t: seq<Joined>): (r: seq<Cleaned>)
    ensures |r| == |t|
    ensures forall i :: 0 <= i < |t| ==>
      var e, it := t[i].event, t[i].item;
      && r[i].itemId == e.itemId && r[i].eventType == e.eventType && r[i].date == e.date
      && r[i].country == e.country && r[i].device == e.device && r[i].userId == e.userId
      && r[i].priceInUsd == e.priceInUsd && r[i].category == it.category && r[i].brand == it.brand
  {
    Map(t, DropIdAndVariant)
  }

  function FillRowCountry(c: Cleaned): Cleaned
  {
    c.(country := Some(c.country.GetOr(UnknownCountry)))
  }

  /**
   * Replaces a missing country by "UNK": afterwards no country is missing, a
   * present country is kept, and no other column changes.
   */
  function FillCountry(t: seq<Cleaned>): (r: seq<Cleaned>)
    ensures |r| == |t|
    ensures forall i :: 0 <= i < |t| ==> r[i].country.Some?
    ensures forall i :: 0 <= i < |t| ==> t[i].country.Some? ==> r[i] == t[i]
    ensures forall i :: 0 <= i < |t| ==> t[i].country.None? ==> r[i] == t[i].(country := Some(UnknownCountry))
  {
    Map(t, FillRowCountry)
  }

  /** Filling twice is filling once. */
  lemma FillCountryIdempotent(t: seq<Cleaned>)
    ensures FillCountry(FillCountry(t)) == FillCountry(t)
  {
    var once := FillCountry(t);
    assert forall i :: 0 <= i < |t| ==> FillCountry(once)[i] == once[i];
  }

  /** The calendar day containing a timestamp. */
  function DayOf(date: int): (d: int)
    ensures d * SecondsPerDay <= date < (d + 1) * SecondsPerDay
  {
    date / SecondsPerDay
  }

  /** Only one day contains a given timestamp. */
  lemma DayOfUnique(date: int, d: int)
    requires d * SecondsPerDay <= date < (d + 1) * SecondsPerDay
    ensures d == DayOf(date)
  {
  }

  function WithDay(c: Cleaned): Row
  {
    Row(c.itemId, c.eventType, c.date, c.country, c.device, c.userId, c.priceInUsd,
        c.category, c.brand, DayOf(c.date))
  }

  /** The columns of a row other than its day. */
  function WithoutDay(r: Row): Cleaned
  {
    Cleaned(r.itemId, r.eventType, r.date, r.country, r.device, r.userId, r.priceInUsd,
            r.category, r.brand)
  }

  /** Adds the `dateDay` column: the day that contains the row's timestamp. */
  function AddDateDay(t: seq<Cleaned>): (r: seq<Row>)
    ensures |r| == |t|
    ensures forall i :: 0 <= i < |t| ==> WithoutDay(r[i]) == t[i]
    ensures forall i :: 0 <= i < |t| ==>
      r[i].dateDay * SecondsPerDay <= r[i].date < (r[i].dateDay + 1) * SecondsPerDay
  {
    Map(t, WithDay)
  }

  /** The merged and cleaned table, before the trim. */
  function Flattened(events: seq<Event>, items: seq<Item>): (t: seq<Row>)
    ensures forall r :: r in t ==> r.country.Some?
  {
    AddDateDay(FillCountry(DropItemColumns(Join(events, items))))
  }

  // ---------------------------------------------------------------- histogram

  function EventTypeOf(r: Row): string
  {
    r.eventType
  }

  /** The `type` column. */
  function TypesOf(t: seq<Row>): seq<string>
  {
    Map(t, EventTypeOf)
  }

  /** The days that have at least one row. */
  function DaysOf(t: seq<Row>): set<int>
  {
    set r | r in t :: r.dateDay
  }

  /** The rows of one day, in table order. */
  function RowsOn(t: seq<Row>, d: int): (r: seq<Row>)
    ensures forall x :: x in r <==> x in t && x.dateDay == d
  {
    Filter(t, (x: Row) => x.dateDay == d)
  }

  /** Day-by-type pivot of event counts: one row per day, one column per event type. */
  type Histogram = map<int, map<string, nat>>

  /**
   * The pivot has a row for exactly the days that have events, and in every
   * row a column for every event type of the table, 0 where the day has none.
   */
  function DayTypeHistogram(t: seq<Row>): (h: Histogram)
    ensures h.Keys == DaysOf(t)
    ensures forall d :: d in h ==> h[d].Keys == Elements(TypesOf(t))
  {
    map d | d in DaysOf(t) :: map ty | ty in TypesOf(t) :: Count(TypesOf(RowsOn(t, d)), ty)
  }

  /** A cell of the pivot is 0 exactly when no row of that day has that type. */
  lemma HistogramCell(t: seq<Row>, d: int, ty: string)
    requires d in DaysOf(t) && ty in TypesOf(t)
    ensures d in DayTypeHistogram(t) && ty in DayTypeHistogram(t)[d]
    ensures DayTypeHistogram(t)[d][ty] == Count(TypesOf(RowsOn(t, d)), ty)
    ensures DayTypeHistogram(t)[d][ty] > 0 <==> exists r :: r in t && r.dateDay == d && r.eventType == ty
  {
    MapElements(RowsOn(t, d), EventTypeOf);
  }

  /** Sum of a pivot row over the listed columns. */
  function RowSum(m: map<string, nat>, cols: seq<string>): int
    requires forall c :: c in cols ==> c in m
  {
    if cols == [] then 0 else m[cols[0]] + RowSum(m, cols[1..])
  }

  lemma {:induction false} RowSumTally(m: map<string, nat>, s: seq<string>, cols: seq<string>)
    requires forall c :: c in cols ==> c in m && m[c] == Count(s, c)
    ensures RowSum(m, cols) == Tally(s, cols)
  {
    if cols != [] {
      RowSumTally(m, s, cols[1..]);
    }
  }

  /** The event-type columns of the pivot, each once. */
  function Columns(t: seq<Row>): (cols: seq<string>)
    ensures NoDup(cols) && Elements(cols) == Elements(TypesOf(t))
  {
    Distinct(TypesOf(t))
  }

  /** The counts of one pivot row add up to the number of events of that day. */
  lemma DaySumIsDayCount(t: seq<Row>, d: int)
    requires d in DayTypeHistogram(t)
    ensures RowSum(DayTypeHistogram(t)[d], Columns(t)) == |RowsOn(t, d)|
  {
    var h, day, cols := DayTypeHistogram(t), RowsOn(t, d), Columns(t);
    RowSumTally(h[d], TypesOf(day), cols);
    MapElements(day, EventTypeOf);
    MapElements(t, EventTypeOf);
    assert forall x :: x in TypesOf(day) ==> x in TypesOf(t);
    TallyAll(TypesOf(day), cols);
  }

  // ---------------------------------------------------------------- cutoff and trim

  /** The days whose add-to-cart count in the pivot is 0. */
  function ZeroCartDays(h: Histogram): set<int>
  {
    set d | d in h && AddToCart in h[d] && h[d][AddToCart] == 0
  }

  /** Some row is an add-to-cart event, so the pivot has an add-to-cart column. */
  predicate HasCartAdds(t: seq<Row>)
  {
    exists r :: r in t && r.eventType == AddToCart
  }

  /** Some day has events but no add-to-cart event. */
  predicate HasZeroCartDay(t: seq<Row>)
  {
    exists r :: r in t && forall x :: x in t && x.dateDay == r.dateDay ==> x.eventType != AddToCart
  }

  /** Day `d` has events, and none of them is an add-to-cart. */
  predicate NoCartAddsOn(t: seq<Row>, d: int)
  {
    d in DaysOf(t) && forall x :: x in t && x.dateDay == d ==> x.eventType != AddToCart
  }

  /** A day is in ZeroCartDays exactly when it has events and none of them is an add-to-cart. */
  lemma ZeroCartDaysMeaning(t: seq<Row>)
    requires HasCartAdds(t)
    ensures forall d :: d in ZeroCartDays(DayTypeHistogram(t)) <==> NoCartAddsOn(t, d)
  {
    var h := DayTypeHistogram(t);
    MapElements(t, EventTypeOf);
    assert AddToCart in TypesOf(t);
    forall d | d in DaysOf(t)
      ensures d in ZeroCartDays(h) <==> NoCartAddsOn(t, d)
    {
      HistogramCell(t, d, AddToCart);
    }
  }

  /** The latest day among the rows' days that lies in `among`, if any. */
  function LastDayAmong(rows: seq<Row>, among: set<int>): (m: Option<int>)
    ensures m.Some? <==> exists r :: r in rows && r.dateDay in among
    ensures m.Some? ==> m.value in among && exists r :: r in rows && r.dateDay == m.value
    ensures m.Some? ==> forall r :: r in rows && r.dateDay in among ==> r.dateDay <= m.value
  {
    if rows == [] then None
    else
      var rest := LastDayAmong(rows[1..], among);
      assert forall r :: r in rows <==> r == rows[0] || r in rows[1..];
      if rows[0].dateDay !in among then rest
      else if rest.Some? && rest.value >= rows[0].dateDay then rest
      else Some(rows[0].dateDay)
  }

  /** The pivot has an add-to-cart column and at least one day where it is 0. */
  predicate CutoffDefined(t: seq<Row>)
  {
    HasCartAdds(t) && HasZeroCartDay(t)
  }

  /** The cutoff: the latest day of the pivot whose add-to-cart count is 0. */
  function Cutoff(t: seq<Row>): (c: int)
    requires CutoffDefined(t)
    ensures c in ZeroCartDays(DayTypeHistogram(t))
    ensures forall d :: d in ZeroCartDays(DayTypeHistogram(t)) ==> d <= c
  {
    var zero := ZeroCartDays(DayTypeHistogram(t));
    ZeroCartDaysMeaning(t);
    LastDayAmong(t, zero).value
  }

  /** Some row of day `d` is an add-to-cart event. */
  predicate HasCartAddOn(t: seq<Row>, d: int)
  {
    exists x :: x in t && x.dateDay == d && x.eventType == AddToCart
  }

  /** Every day after `c` that has events has an add-to-cart event. */
  predicate CartAddsAfter(t: seq<Row>, c: int)
  {
    forall r :: r in t && r.dateDay > c ==> HasCartAddOn(t, r.dateDay)
  }

  /** Every row of the pivot has an add-to-cart column with a non-zero count. */
  predicate CartAddsEveryDay(h: Histogram)
  {
    forall d :: d in h ==> AddToCart in h[d] && h[d][AddToCart] > 0
  }

  lemma LatestNoCartDay(t: seq<Row>, zero: set<int>, c: int)
    requires forall d :: d in zero <==> NoCartAddsOn(t, d)
    requires c in zero && forall d :: d in zero ==> d <= c
    ensures c in DaysOf(t)
    ensures forall x :: x in t && x.dateDay == c ==> x.eventType != AddToCart
    ensures CartAddsAfter(t, c)
  {
    assert NoCartAddsOn(t, c);
    forall r | r in t && r.dateDay > c
      ensures HasCartAddOn(t, r.dateDay)
    {
      assert r.dateDay in DaysOf(t);
      assert !NoCartAddsOn(t, r.dateDay);
    }
  }

  /** The cutoff in terms of rows: a day with events, none an add-to-cart, and every later day with events has one. */
  lemma CutoffIsLastZeroCartDay(t: seq<Row>)
    requires CutoffDefined(t)
    ensures Cutoff(t) in DaysOf(t)
    ensures forall x :: x in t && x.dateDay == Cutoff(t) ==> x.eventType != AddToCart
    ensures CartAddsAfter(t, Cutoff(t))
  {
    ZeroCartDaysMeaning(t);
    LatestNoCartDay(t, ZeroCartDays(DayTypeHistogram(t)), Cutoff(t));
  }

  /** Keeps the rows from the day after the cutoff on, in table order. */
  function Trim(t: seq<Row>, cutoff: int): (r: seq<Row>)
    ensures Subseq(r, t)
    ensures forall x :: x in r <==> x in t && x.dateDay >= cutoff + 1
    ensures forall x :: multiset(r)[x] == if x.dateDay >= cutoff + 1 then multiset(t)[x] else 0
  {
    Filter(t, (x: Row) => x.dateDay >= cutoff + 1)
  }

  lemma CartAddOnTrimmedDay(t: seq<Row>, c: int, d: int)
    requires CartAddsAfter(t, c)
    requires d in DaysOf(Trim(t, c))
    ensures HasCartAddOn(Trim(t, c), d)
  {
    var k := Trim(t, c);
    var r :| r in k && r.dateDay == d;
    assert r in t && r.dateDay > c;
    var x :| x in t && x.dateDay == d && x.eventType == AddToCart;
    assert x in k;
  }

  /** Trimming after a day `c` such that every later day with events has an add-to-cart leaves no day without one. */
  lemma TrimAfterLastZeroCartDay(t: seq<Row>, c: int)
    requires CartAddsAfter(t, c)
    ensures CartAddsEveryDay(DayTypeHistogram(Trim(t, c)))
  {
    var k := Trim(t, c);
    var h := DayTypeHistogram(k);
    forall d | d in h ensures AddToCart in h[d] && h[d][AddToCart] > 0 {
      CartAddOnTrimmedDay(t, c, d);
      assert HasCartAddOn(k, d);
      var x :| x in k && x.dateDay == d && x.eventType == AddToCart;
      MapElements(k, EventTypeOf);
      assert AddToCart in TypesOf(k);
      HistogramCell(k, d, AddToCart);
    }
  }

  /**
   * After trimming at the cutoff, the pivot of what is left has an add-to-cart
   * column and no 0 in it: every remaining day has an add-to-cart event.
   */
  lemma TrimmedDaysHaveCartAdds(t: seq<Row>)
    requires CutoffDefined(t)
    ensures CartAddsEveryDay(DayTypeHistogram(Trim(t, Cutoff(t))))
  {
    var c := Cutoff(t);
    CutoffIsLastZeroCartDay(t);
    TrimAfterLastZeroCartDay(t, c);
  }

  /** The preparation script, one step after the other on the table variable `df`. */
  method Prepare(events: seq<Event>, items: seq<Item>) returns (df: seq<Row>)
    requires CutoffDefined(Flattened(events, items))
    ensures df == Trim(Flattened(events, items), Cutoff(Flattened(events, items)))
    ensures forall r :: r in df ==> r.country.Some? && r.dateDay > Cutoff(Flattened(events, items))
    ensures CartAddsEveryDay(DayTypeHistogram(df))
  {
    var merged := Join(events, items);
    var cleaned := DropItemColumns(merged);
    cleaned := FillCountry(cleaned);
    df := AddDateDay(cleaned);
    var lastZeroDay := Cutoff(df);
    df := Trim(df, lastZeroDay);
    TrimmedDaysHaveCartAdds(Flattened(events, items));
  }
}
