# Sales dashboard data pipeline — a Dafny model

This project models the two scripts of a small e-commerce analytics
repository:

* **Preparation** (`preprocessing.py`): the events table is inner-joined to
  the product catalog on `item_id = id`; the catalog's `variant` and `id`
  columns are dropped; a missing `country` becomes `"UNK"`; each row gets
  `date_day`, the calendar day of its timestamp; a day-by-type pivot of
  event counts is built (absent combinations count 0); the cutoff is the
  latest day whose `add_to_cart` count is 0; and only the rows of the days
  after the cutoff are kept.
* **Dashboard** (`dashboard.py`): every prepared row gets a `continent`
  (a fixed seven-entry table applied to a country-to-continent-code lookup,
  with `"Unknown"` as the fallback for any failure); the sidebar filter keeps
  the rows whose continent and device are selected and whose day lies in the
  picked range (a single picked date means start = end); the view shows the
  total revenue of the purchase rows, the number of distinct users, and the
  grouped tables behind the charts: sales per (day, device), purchase counts
  per category, row counts per (continent, device), and row counts per event
  type (the funnel).

Tables are sequences of row datatypes. Timestamps are integer seconds, days
are integer day numbers (day `d` is the seconds `[d * 86400, (d + 1) * 86400)`),
prices are integers (e.g. cents) and missing cells are `Option`s. The
third-party country-to-continent-code conversion is a parameter
`lookup: string -> Option<string>`, `None` standing for the conversion raising.

Files: `wrappers.dfy` (the `Option` type), `tables.dfy` (generic boolean-mask
filter, column projection, distinct values, group-and-count and
group-and-sum with the laws that their groups add up to the whole),
`preprocessing.dfy`, `dashboard.dfy`, and `scenario.dfy` (a worked two-day
example).

The preparation script changes one table step by step; `Preprocessing.Prepare`
is a method that threads the table variable through the same steps, and each
step is a function whose contract states what it does to the table. The
dashboard is pure expressions over the loaded table, and is modelled with
functions and lemmas.

Modelling decisions that follow the code as written:

* the merge keeps `item_id` (only `variant` and `id` are dropped);
* catalog ids are not checked for uniqueness: an event matching several
  catalog rows yields one row per match (`Join`), and the one-row-per-event
  law is proved under the hypothesis that ids are unique;
* when no day has zero add-to-cart events, or no add-to-cart event exists at
  all, the script does not fall back to keeping the whole table (it takes the
  maximum of an empty index, or indexes a missing pivot column); the model
  makes both situations a precondition of the cutoff (`CutoffDefined`).

## Model

| member | source | states |
|---|---|---|
| `Preprocessing.Matches` | preprocessing.py:10 | the merged rows of one event are exactly the pairs of that event with each catalog item carrying its `item_id` |
| `Preprocessing.Join` | preprocessing.py:10 | inner join: a merged row pairs an event with a catalog item whose `id` equals the event's `item_id`, every such pair appears, and an event without a match contributes nothing |
| `Preprocessing.JoinOneRowPerMatchedEvent` | preprocessing.py:10 | with unique catalog ids, the events of the merged table are exactly the matched events, once each and in order, so the merged table is no longer than the events table |
| `Preprocessing.DropItemColumns` | preprocessing.py:12-13 | dropping `variant` and `id` keeps the row count and every other column's value |
| `Preprocessing.FillCountry` | preprocessing.py:14 | after the fill no country is missing; a present country is unchanged, a missing one becomes `"UNK"`, and no other column changes |
| `Preprocessing.FillCountryIdempotent` | preprocessing.py:14 | filling an already filled table changes nothing |
| `Preprocessing.DayOf` | preprocessing.py:16-17 | the day of a timestamp is the day containing it: `d * 86400 <= date < (d + 1) * 86400` |
| `Preprocessing.DayOfUnique` | preprocessing.py:16-17 | no other day contains the timestamp |
| `Preprocessing.AddDateDay` | preprocessing.py:16-17 | each row gets the day containing its timestamp; row count, order and all other columns are kept |
| `Preprocessing.Flattened` | preprocessing.py:10-17 | the merged and cleaned table has no missing country |
| `Preprocessing.DayTypeHistogram` | preprocessing.py:19 | the pivot has a row for exactly the days with events and, in each, a column for every event type of the table |
| `Preprocessing.HistogramCell` | preprocessing.py:19 | a pivot cell counts that day's rows of that type, and is 0 exactly when the day has no row of that type |
| `Preprocessing.DaySumIsDayCount` | preprocessing.py:19 | the counts in a day's pivot row add up to that day's number of rows |
| `Preprocessing.ZeroCartDaysMeaning` | preprocessing.py:22 | a day has a 0 in the add-to-cart column exactly when it has events and none of them is an add-to-cart |
| `Preprocessing.LastDayAmong` | preprocessing.py:25 | the maximum of the selected days: present exactly when some day is selected, itself selected, and no selected day is later |
| `Preprocessing.Cutoff` | preprocessing.py:22-25 | the cutoff is a day whose add-to-cart count is 0, and no later day has a 0 add-to-cart count |
| `Preprocessing.CutoffIsLastZeroCartDay` | preprocessing.py:22-25 | in terms of rows: the cutoff day has events, none of them an add-to-cart, and every later day with events has an add-to-cart event |
| `Preprocessing.Trim` | preprocessing.py:29 | the trim keeps exactly the rows with `date_day >= cutoff + 1`, with their multiplicities, as an order-preserving subsequence |
| `Preprocessing.TrimmedDaysHaveCartAdds` | preprocessing.py:19-29 | after trimming at the cutoff, the pivot of the remaining table has an add-to-cart column with no 0: every remaining day has an add-to-cart event |
| `Preprocessing.Prepare` | preprocessing.py:10-29 | the script's steps in order yield the trimmed flattened table; no country is missing, every row is after the cutoff, and every remaining day has an add-to-cart event |
| `Scenario.TwoDayScenario` | preprocessing.py:10-29 | a purchase on day 0 and an add-to-cart on day 1 of one catalog item: cutoff is day 0, only the day-1 row is kept, and its revenue is 0 |
| `Dashboard.GetContinent` | dashboard.py:12-26 | total; the result is one of the seven continent names or `"Unknown"`; it is `"Unknown"` exactly when the lookup fails or gives a code outside the table, and otherwise the table's name for the code |
| `Dashboard.ContinentOf` | dashboard.py:12-28 | a present country gets the continent `GetContinent` gives its code; a missing country also falls back to `"Unknown"`; the result is always one of the eight labels |
| `Dashboard.AddContinent` | dashboard.py:28 | adding the continent column keeps row count, order and every other column, and each continent is the one of the row's country |
| `Dashboard.DateBounds` | dashboard.py:53-54 | the range starts at the first picked date and ends at the second, or at the first when only one date is picked; an empty pick has no range |
| `Dashboard.FilterView` | dashboard.py:57-62 | a row is in the view exactly when its continent and device are selected and `start <= date_day <= end`; the view is an order-preserving subsequence with multiplicities kept |
| `Dashboard.SingleDateView` | dashboard.py:53-62 | a single picked date keeps exactly the selected rows of that day |
| `Dashboard.DefaultDevices` | dashboard.py:40-44 | the default device selection lists exactly the devices of the table, each once |
| `Dashboard.FirstDay` | dashboard.py:45-50 | the default start date is the earliest day of the table |
| `Dashboard.LastDay` | dashboard.py:45-50 | the default end date is the latest day of the table |
| `Dashboard.DefaultFilterSelectsByContinent` | dashboard.py:40-62 | with the default devices and dates, the view is selected by continent alone |
| `Dashboard.Purchases` | dashboard.py:71 | the purchase rows of the view, in order, each with its multiplicity in the view |
| `Dashboard.Revenue` | dashboard.py:71 | total revenue is 0 when the view has no purchase row; its value on every view is fixed by `RevenueSingle` and `RevenueAppend` |
| `Dashboard.RevenueAppend` | dashboard.py:71 | revenue adds up over a split of the view |
| `Dashboard.RevenueSingle` | dashboard.py:71 | a one-row view's revenue is its price (0 when missing) if it is a purchase, else 0; with `RevenueAppend` this fixes revenue as the sum of the purchase rows' prices |
| `Dashboard.UniqueUsers` | dashboard.py:75 | the number of distinct user ids of the view; at most the row count, and 0 exactly for an empty view |
| `Dashboard.SalesTrend` | dashboard.py:79-84 | one point per (day, device) with purchases, with distinct keys; each point holds the revenue of that day's and device's rows; the points add up to the total revenue |
| `Dashboard.TrendPointSum` | dashboard.py:79-84 | summing the purchase prices grouped under one (day, device) key equals the revenue of the rows on that key |
| `Dashboard.CategoryCounts` | dashboard.py:89-96 | one row per purchased category, distinct, each with its positive number of purchase rows; the rows add up to the number of purchase rows |
| `Dashboard.Heatmap` | dashboard.py:101-106 | one cell per (continent, device) present, distinct, each with its positive row count; the cells add up to the view's row count |
| `Dashboard.Funnel` | dashboard.py:121 | one row per event type present, distinct, each with its positive row count; the rows add up to the view's row count |
| `Dashboard.EmptySelection` | dashboard.py:57-121 | a selection matching no row gives revenue 0, no users and empty grouped tables |

## Left out

- Reading and writing CSV files (preprocessing.py:6-7, 32; dashboard.py:9) and the parsing of dates: rows arrive already typed. pandas' default missing-value tokens (which include the string `NA`) are part of that parsing and are not modelled.
- Timestamps are whole seconds on a single clock; time zones and sub-second precision are not modelled.
- Prices are integers; pandas' floating-point sums are not modelled.
- The country-to-continent-code conversion of the geography library is a parameter (`lookup`), not a definition.
- Streamlit widgets, the load memoisation, layout, titles and metric formatting (dashboard.py:7, 31-50, 64-75): only the values feeding them are modelled; the default widget values appear as `DefaultDevices`, `FirstDay` and `LastDay`.
- Average order value (dashboard.py:73): a floating-point mean that is undefined on an empty selection.
- Chart specifications (encodings, sort orders, colours, interactivity) and the raw brand/price scatter (dashboard.py:109-117).
- Order of grouped tables and chart axes (pandas' grouping order, the line chart's time axis, the category chart's descending count order at dashboard.py:90): the model's grouped tables list each key once in an unspecified order.
- The unused day-count series and the bare expression (preprocessing.py:18, 26) and the unused plotting and numeric imports.
- Cutoff: requires `CutoffDefined` (some add-to-cart event exists, and some day has events but no add-to-cart), because the script raises or takes the maximum of an empty index otherwise; the same precondition is on `CutoffIsLastZeroCartDay`, `TrimmedDaysHaveCartAdds` and `Prepare`.
- FirstDay, LastDay: require a non-empty table; the script's date picker has no defaults for an empty table.
- JoinOneRowPerMatchedEvent: states the one-row-per-event law only when catalog ids are unique, since the script does not check uniqueness.
