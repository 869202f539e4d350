/**
 * A worked example of the preparation script on a two-event table, and of the
 * dashboard's revenue on its output.
 */
module Scenario {
  import opened Wrappers
  import opened Preprocessing
  import opened Dashboard

  const Events: seq<Event> := [Event(1, "purchase", 0, Some("US"), "desktop", 7, Some(10)),
                               Event(1, "add_to_cart", 86400, Some("US"), "desktop", 7, None)]
  const Items: seq<Item> := [Item(1, "shirt", "X", "v1")]
  const Day0Row: Row := Row(1, "purchase", 0, Some("US"), "desktop", 7, Some(10), "shirt", "X", 0)
  const Day1Row: Row := Row(1, "add_to_cart", 86400, Some("US"), "desktop", 7, None, "shirt", "X", 1)

  lemma ScenarioFlattened()
    ensures Flattened(Events, Items) == [Day0Row, Day1Row]
  {
    assert Join(Events, Items) == [Joined(Events[0], Items[0]), Joined(Events[1], Items[0])];
  }

  lemma ScenarioCutoff(t: seq<Row>)
    requires t == [Day0Row, Day1Row]
    ensures CutoffDefined(t) && Cutoff(t) == 0
  {
    assert Day0Row in t && Day1Row in t;
    assert forall x :: x in t ==> x == Day0Row || x == Day1Row;
    assert HasCartAdds(t);
    assert forall x :: x in t && x.dateDay == 0 ==> x.eventType != AddToCart;
    assert HasZeroCartDay(t);
    CutoffIsLastZeroCartDay(t);
  }

  lemma ScenarioTrim(t: seq<Row>)
    requires t == [Day0Row, Day1Row]
    ensures Trim(t, 0) == [Day1Row]
  {
    var k := Trim(t, 0);
    assert multiset(t) == multiset{Day0Row, Day1Row};
    forall x ensures multiset(k)[x] == multiset{Day1Row}[x] {
      if x != Day0Row && x != Day1Row {
        assert x !in t;
      }
    }
    assert multiset(k) == multiset{Day1Row};
    assert |k| == 1 && k[0] in k;
  }

  /**
   * A purchase on day 0 and an add-to-cart on day 1 of the same catalog item:
   * day 0 is the only day without an add-to-cart, so it is the cutoff, only
   * the day-1 row survives the trim, and the revenue of what survives is 0.
   */
  lemma TwoDayScenario(lookup: string -> Option<string>)
    ensures var t := Flattened(Events, Items);
      && CutoffDefined(t) && Cutoff(t) == 0
      && Trim(t, Cutoff(t)) == [Day1Row]
      && Revenue(AddContinent(lookup, [Day1Row])) == 0
  {
    ScenarioFlattened();
    ScenarioCutoff(Flattened(Events, Items));
    ScenarioTrim(Flattened(Events, Items));
  }
}
