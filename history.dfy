/**
 * `portfolioHistory`: the requested date range (defaults, and the clamp of
 * the start to the earliest purchase), the day-by-day enumeration of the
 * range, one NAV-history request per scheme, and the value and profit or
 * loss of the holdings on each day. A day's NAV comes from the lookup as
 * written, `NavSeries.HistoryQuote`: the last stored quote on or before the
 * day. The latest quote on or before the day, which the lookup's comment asks
 * for, is the reference `LatestValueOn`; the two agree on series stored
 * oldest-first (`ValueOnAscending`).
 */
module History {
  import opened Wrappers
  import opened Dates
  import opened NavSeries
  import opened Holdings
  import opened Money
  import Valuation

  /** One element of the response's `data` array. */
  datatype Snapshot = Snapshot(date: string, totalValue: real, profitLoss: real)

  datatype HistoryError =
    | NoPurchases  // 404
    | ServerError  // 500: a history request failed, had no series, or held an entry without a date

  // ------------------------------------------------------------------ range

  /** `normalizeDate(new Date())` for the clock reading `now`. */
  function Today(now: TimeValue): (d: JsDate)
    ensures AtMidnight(d)
  {
    NormalizeDate(Time(now))
  }

  /** `endDate`: the normalised query date when one is given, else today. */
  function EndDate(now: TimeValue, endQuery: string): JsDate {
    if endQuery != "" then NormalizeDate(ParseDDMMYYYY(endQuery).value) else Today(now)
  }

  /** `startDate`: the normalised query date when one is given, else 30 days before today. */
  function StartDate(now: TimeValue, startQuery: string): JsDate {
    if startQuery != "" then NormalizeDate(ParseDDMMYYYY(startQuery).value)
    else TimeClip(Today(now).ms - 30 * MsPerDay)
  }

  /** `Math.min(...purchases.map(p => new Date(p.purchaseDate)))`. */
  function Earliest(ps: seq<Purchase>): (t: TimeValue)
    requires |ps| > 0
    ensures forall i | 0 <= i < |ps| :: t <= ps[i].purchaseDate
    ensures exists i | 0 <= i < |ps| :: t == ps[i].purchaseDate
  {
    if |ps| == 1 then ps[0].purchaseDate
    else
      var rest := Earliest(ps[1..]);
      assert forall i | 1 <= i < |ps| :: ps[i] == ps[1..][i - 1];
      if ps[0].purchaseDate <= rest then ps[0].purchaseDate else rest
  }

  /** `minPurchaseDate`: the day of the earliest purchase. */
  function FirstPurchaseDay(ps: seq<Purchase>): (d: JsDate)
    requires |ps| > 0
    ensures AtMidnight(d)
  {
    NormalizeDate(Time(Earliest(ps)))
  }

  /**
   * `actualStartDate`: the later of the start and the first purchase day. An
   * Invalid start compares false and is kept, so it yields no days.
   */
  function EffectiveStart(start: JsDate, ps: seq<Purchase>): (r: JsDate)
    requires |ps| > 0
    ensures r.Time? <==> start.Time?
    ensures r.Time? ==> r.ms >= start.ms && r.ms >= FirstPurchaseDay(ps).ms
    ensures r.Time? ==> r.ms == start.ms || r.ms == FirstPurchaseDay(ps).ms
  {
    var first := FirstPurchaseDay(ps);
    if Before(start, first) then first else start
  }

  // --------------------------------------------------------------- day list

  /** How many days `dt <= endDate` lets through, starting at `start` and stepping a day at a time. */
  function DayCount(start: JsDate, end: JsDate): nat {
    if AtOrBefore(start, end) then (end.ms - start.ms) / MsPerDay + 1 else 0
  }

  /**
   * The days from `start` to `end`: the first is `start`, each is a day after
   * the one before, all lie between the two, and the day after the last is
   * past `end`. Empty when `start` is after `end` or either is Invalid.
   */
  function DayList(start: JsDate, end: JsDate): (days: seq<JsDate>)
    ensures |days| == DayCount(start, end)
    ensures |days| > 0 ==> days[0] == start
    ensures forall i | 0 <= i < |days| :: days[i].Time? && AtOrBefore(start, days[i]) && AtOrBefore(days[i], end)
    ensures forall i | 0 <= i < |days| :: days[i].Time? && days[i].ms == start.ms + i * MsPerDay
    ensures |days| > 0 ==> days[|days| - 1].ms + MsPerDay > end.ms
  {
    if AtOrBefore(start, end) then
      var n := DayCount(start, end);
      assert (n - 1) * MsPerDay <= end.ms - start.ms < n * MsPerDay;
      seq(n, i requires 0 <= i < n => TimeClip(start.ms + i * MsPerDay))
    else []
  }

  /**
   * The `for (let dt = new Date(actualStartDate); dt <= endDate; dt.setDate(dt.getDate() + 1))`
   * loop. With local time taken as UTC, `setDate(getDate() + 1)`
   * moves a Date exactly one day on, and past the last time value it becomes
   * an Invalid Date.
   */
  method EnumerateDays(start: JsDate, end: JsDate) returns (days: seq<JsDate>)
    ensures days == DayList(start, end)
  {
    ghost var all := DayList(start, end);
    var dt := start;
    days := [];
    while AtOrBefore(dt, end)
      invariant |days| <= |all| && days == all[..|days|]
      invariant start.Time? ==> dt == TimeClip(start.ms + |days| * MsPerDay)
      invariant start.Invalid? ==> dt == start
      decreases if dt.Time? && end.Time? then end.ms - dt.ms + MsPerDay else 0
    {
      assert |days| * MsPerDay <= end.ms - start.ms;
      assert |days| < |all|;
      days := days + [dt];
      dt := TimeClip(dt.ms + MsPerDay);
    }
    assert days == all;
  }

  // ----------------------------------------------------------------- series

  /**
   * `navHistory.data.map(entry => ({date: normalizeDate(parseDDMMYYYY(entry.date)), nav}))`:
   * an entry with an empty date makes `normalizeDate(null)` throw.
   */
  function QuotesOf(data: seq<NavEntry>): (r: Option<seq<Quote>>)
    ensures r.Some? <==> forall i | 0 <= i < |data| :: data[i].date != ""
    ensures r.Some? ==> |r.value| == |data|
    ensures r.Some? ==> forall i | 0 <= i < |data| ::
      r.value[i] == Quote(NormalizeDate(ParseDDMMYYYY(data[i].date).value), data[i].nav)
  {
    if data == [] then Some([])
    else if data[0].date == "" then None
    else
      match QuotesOf(data[1..])
      case None => None
      case Some(rest) =>
        Some([Quote(NormalizeDate(ParseDDMMYYYY(data[0].date).value), data[0].nav)] + rest)
  }

  /** The quotes of one history request; a failed request or a response without `data` throws. */
  function SeriesOf(f: Fetch): Option<seq<Quote>> {
    match f
    case Fetched(data) => QuotesOf(data)
    case _ => None
  }

  /** Every purchased scheme's history request yields a series. */
  predicate SeriesAvailable(ps: seq<Purchase>, history: real -> Fetch) {
    forall i | 0 <= i < |ps| :: SeriesOf(history(ps[i].schemeCode)).Some?
  }

  /** The quotes of a scheme, empty when its series is not available. */
  function Quotes(history: real -> Fetch, code: real): seq<Quote> {
    match SeriesOf(history(code))
    case Some(qs) => qs
    case None => []
  }

  /** `schemeNavMap` once filled: each purchased scheme's quotes. */
  function NavMapOf(ps: seq<Purchase>, history: real -> Fetch): (m: map<real, seq<Quote>>)
    ensures forall k :: k in m <==> k in Valuation.Codes(ps)
    ensures forall k | k in m :: m[k] == Quotes(history, k)
  {
    if ps == [] then map[]
    else
      var p := ps[|ps| - 1];
      NavMapOf(ps[..|ps| - 1], history)[p.schemeCode := Quotes(history, p.schemeCode)]
  }

  /** A map with the purchased schemes as keys and their quotes as values is NavMapOf. */
  lemma NavMapOfUnique(ps: seq<Purchase>, history: real -> Fetch, m: map<real, seq<Quote>>)
    requires forall k :: k in m <==> k in Valuation.Codes(ps)
    requires forall k | k in m :: m[k] == Quotes(history, k)
    ensures m == NavMapOf(ps, history)
  {
    var expected := NavMapOf(ps, history);
    assert forall k :: k in m <==> k in expected;
  }

  /**
   * Step 4, `schemeNavMap`: one history request per scheme, in order of first
   * appearance (`requested`), stopping with `false` at the first that throws.
   */
  method FetchSeries(ps: seq<Purchase>, history: real -> Fetch)
    returns (ok: bool, navMap: map<real, seq<Quote>>, requested: seq<real>)
    ensures ok <==> SeriesAvailable(ps, history)
    ensures ok ==> requested == Valuation.Codes(ps)
    ensures ok ==> navMap == NavMapOf(ps, history)
  {
    navMap, requested := map[], [];
    for i := 0 to |ps|
      invariant requested == Valuation.Codes(ps[..i])
      invariant forall k :: k in navMap <==> k in requested
      invariant forall k | k in navMap :: navMap[k] == Quotes(history, k) && SeriesOf(history(k)).Some?
      invariant SeriesAvailable(ps[..i], history)
    {
      var p := ps[i];
      assert ps[..i + 1][..i] == ps[..i];
      if p.schemeCode !in navMap {
        var series := SeriesOf(history(p.schemeCode));
        if series.None? {
          assert !SeriesOf(history(ps[i].schemeCode)).Some?;
          return false, navMap, requested;
        }
        navMap := navMap[p.schemeCode := series.value];
        requested := requested + [p.schemeCode];
      } else {
        assert SeriesOf(history(ps[i].schemeCode)).Some?;
      }
    }
    assert ps[..|ps|] == ps;
    NavMapOfUnique(ps, history, navMap);
    ok := true;
  }

  // -------------------------------------------------------------- one day

  /** `purchaseDate.getTime() > currentDate.getTime()` fails: the purchase is held on the day. */
  predicate Held(p: Purchase, day: TimeValue) {
    NormalizeDate(Time(p.purchaseDate)).ms <= day
  }

  /** `schemeNavMap[code]`. */
  function SeriesIn(navMap: map<real, seq<Quote>>, code: real): seq<Quote> {
    if code in navMap then navMap[code] else []
  }

  /** `navEntry ? navEntry.nav : p.purchaseNav`, for the entry the reversed `find` returns. */
  function NavOnDay(p: Purchase, quotes: seq<Quote>, day: TimeValue): real {
    match HistoryQuote(quotes, day)
    case Some(q) => q.nav
    case None => p.purchaseNav
  }

  /** What one purchase adds to `totalValue` on a day: units times the day's NAV, once it is held. */
  function ValueOf(p: Purchase, navMap: map<real, seq<Quote>>, day: TimeValue): real {
    if Held(p, day) then p.units * NavOnDay(p, SeriesIn(navMap, p.schemeCode), day) else 0.0
  }

  /** What one purchase adds to `totalInvested` on a day: units times purchase NAV, once it is held. */
  function InvestedOf(p: Purchase, day: TimeValue): real {
    if Held(p, day) then p.units * p.purchaseNav else 0.0
  }

  /** `totalValue` on a day, over the purchases in order. */
  function ValueOn(ps: seq<Purchase>, navMap: map<real, seq<Quote>>, day: TimeValue): real {
    if ps == [] then 0.0 else ValueOn(ps[..|ps| - 1], navMap, day) + ValueOf(ps[|ps| - 1], navMap, day)
  }

  /** `totalInvested` on a day, over the purchases in order. */
  function InvestedOn(ps: seq<Purchase>, day: TimeValue): real {
    if ps == [] then 0.0 else InvestedOn(ps[..|ps| - 1], day) + InvestedOf(ps[|ps| - 1], day)
  }

  /** One more purchase adds its own contribution to both totals. */
  lemma ValueStep(ps: seq<Purchase>, p: Purchase, navMap: map<real, seq<Quote>>, day: TimeValue)
    ensures ValueOn(ps + [p], navMap, day) == ValueOn(ps, navMap, day) + ValueOf(p, navMap, day)
    ensures InvestedOn(ps + [p], day) == InvestedOn(ps, day) + InvestedOf(p, day)
  {
    assert (ps + [p])[..|ps|] == ps;
  }

  /** The pushed row: the date as `DD-MM-YYYY`, the value and the profit or loss to 2 places. */
  function SnapshotOf(date: JsDate, value: real, invested: real): (s: Snapshot)
    ensures s.date == FormatDate(date)
    ensures -0.005 <= s.totalValue - value <= 0.005
    ensures -0.005 <= s.profitLoss - (value - invested) <= 0.005
  {
    RoundCents(value);
    RoundCents(value - invested);
    Snapshot(FormatDate(date), RoundTo(value, 2), RoundTo(value - invested, 2))
  }

  /** The row of one listed day; purchases are compared against `normalizeDate(date)`. */
  function DayRow(ps: seq<Purchase>, navMap: map<real, seq<Quote>>, date: JsDate): Snapshot
    requires date.Time?
  {
    var current := NormalizeDate(date).ms;
    SnapshotOf(date, ValueOn(ps, navMap, current), InvestedOn(ps, current))
  }

  /** The body of the inner loop: a purchase made after the day is skipped; otherwise its NAV on the day is looked up. */
  method AddPurchase(p: Purchase, navMap: map<real, seq<Quote>>, currentDate: TimeValue, value: real, invested: real)
    returns (totalValue: real, totalInvested: real)
    requires p.schemeCode in navMap
    ensures totalValue == value + ValueOf(p, navMap, currentDate)
    ensures totalInvested == invested + InvestedOf(p, currentDate)
  {
    totalValue, totalInvested := value, invested;
    var purchaseDate := NormalizeDate(Time(p.purchaseDate));
    if purchaseDate.ms > currentDate {
      return;
    }
    var navArray := navMap[p.schemeCode];
    var navEntry := FindOnOrBefore(Reverse(navArray), currentDate);
    var navOnDate := if navEntry.Some? then navEntry.value.nav else p.purchaseNav;
    totalValue := totalValue + p.units * navOnDate;
    totalInvested := totalInvested + p.units * p.purchaseNav;
  }

  /** The inner `for (const p of purchases)` loop for one day. */
  method DayTotals(ps: seq<Purchase>, navMap: map<real, seq<Quote>>, currentDate: TimeValue)
    returns (totalValue: real, totalInvested: real)
    requires forall i | 0 <= i < |ps| :: ps[i].schemeCode in navMap
    ensures totalValue == ValueOn(ps, navMap, currentDate)
    ensures totalInvested == InvestedOn(ps, currentDate)
  {
    totalValue, totalInvested := 0.0, 0.0;
    for i := 0 to |ps|
      invariant totalValue == ValueOn(ps[..i], navMap, currentDate)
      invariant totalInvested == InvestedOn(ps[..i], currentDate)
    {
      ValueStep(ps[..i], ps[i], navMap, currentDate);
      assert ps[..i + 1] == ps[..i] + [ps[i]];
      totalValue, totalInvested := AddPurchase(ps[i], navMap, currentDate, totalValue, totalInvested);
    }
    assert ps[..|ps|] == ps;
  }

  /** The body of the outer loop: `currentDate`, the two totals, and the pushed row. */
  method OneDay(ps: seq<Purchase>, navMap: map<real, seq<Quote>>, date: JsDate) returns (row: Snapshot)
    requires date.Time?
    requires forall i | 0 <= i < |ps| :: ps[i].schemeCode in navMap
    ensures row == DayRow(ps, navMap, date)
  {
    var currentDate := NormalizeDate(date).ms;
    var totalValue, totalInvested := DayTotals(ps, navMap, currentDate);
    row := SnapshotOf(date, totalValue, totalInvested);
  }

  /** Step 5: one row per listed day, in order. */
  method DayRows(days: seq<JsDate>, ps: seq<Purchase>, navMap: map<real, seq<Quote>>)
    returns (rows: seq<Snapshot>)
    requires forall j | 0 <= j < |days| :: days[j].Time?
    requires forall i | 0 <= i < |ps| :: ps[i].schemeCode in navMap
    ensures |rows| == |days|
    ensures forall j | 0 <= j < |days| :: rows[j] == DayRow(ps, navMap, days[j])
  {
    rows := [];
    for j := 0 to |days|
      invariant |rows| == j
      invariant forall t | 0 <= t < j :: rows[t] == DayRow(ps, navMap, days[t])
    {
      var row := OneDay(ps, navMap, days[j]);
      AppendRow(rows, row, days, ps, navMap);
      rows := rows + [row];
    }
  }

  /** Appending the row of the next day keeps every row the row of its day. */
  lemma AppendRow(rows: seq<Snapshot>, row: Snapshot, days: seq<JsDate>, ps: seq<Purchase>, navMap: map<real, seq<Quote>>)
    requires |rows| < |days| && forall j | 0 <= j < |days| :: days[j].Time?
    requires forall t | 0 <= t < |rows| :: rows[t] == DayRow(ps, navMap, days[t])
    requires row == DayRow(ps, navMap, days[|rows|])
    ensures forall t | 0 <= t < |rows| + 1 :: (rows + [row])[t] == DayRow(ps, navMap, days[t])
  {
  }

  /**
   * `portfolioHistory` for the clock reading `now`, the `startDate` and
   * `endDate` query strings ("" when absent), the user's purchases and the
   * NAV-history provider.
   */
  method PortfolioHistory(now: TimeValue, startQuery: string, endQuery: string, ps: seq<Purchase>, history: real -> Fetch)
    returns (r: Result<seq<Snapshot>, HistoryError>)
    ensures |ps| == 0 ==> r == Err(NoPurchases)
    ensures |ps| > 0 ==> (r.Ok? <==> SeriesAvailable(ps, history))
    ensures r.Err? ==> r.error == (if |ps| == 0 then NoPurchases else ServerError)
    ensures r.Ok? ==>
      && |ps| > 0
      && var days := DayList(EffectiveStart(StartDate(now, startQuery), ps), EndDate(now, endQuery));
      && |r.value| == |days|
      && forall j | 0 <= j < |days| :: r.value[j] == DayRow(ps, NavMapOf(ps, history), days[j])
  {
    var endDate := EndDate(now, endQuery);
    var startDate := StartDate(now, startQuery);
    if |ps| == 0 {
      return Err(NoPurchases);
    }
    var actualStartDate := EffectiveStart(startDate, ps);
    var dateList := EnumerateDays(actualStartDate, endDate);
    var ok, navMap, requested := FetchSeries(ps, history);
    if !ok {
      return Err(ServerError);
    }
    forall i | 0 <= i < |ps| ensures ps[i].schemeCode in navMap {
      assert ps[i].schemeCode in Valuation.Codes(ps);
    }
    var rows := DayRows(dateList, ps, navMap);
    r := Ok(rows);
  }

  // ----------------------------------------------------------------- lemmas

  /**
   * With no query parameters and a first purchase at least 30 days back, the
   * range is the 31 days from 30 days before today up to today.
   */
  lemma DefaultRange(now: TimeValue, ps: seq<Purchase>)
    requires |ps| > 0
    requires -MaxTime <= Today(now).ms - 30 * MsPerDay
    requires FirstPurchaseDay(ps).ms <= Today(now).ms - 30 * MsPerDay
    ensures
      var days := DayList(EffectiveStart(StartDate(now, ""), ps), EndDate(now, ""));
      && |days| == 31
      && days[0] == Time(Today(now).ms - 30 * MsPerDay)
      && days[30] == Today(now)
  {
    var start := StartDate(now, "");
    assert start == Time(Today(now).ms - 30 * MsPerDay);
    assert EffectiveStart(start, ps) == start;
  }

  /** Between two midnights the list has one day per day of the range, inclusive, and ends on `end`. */
  lemma DayListBetweenMidnights(start: JsDate, end: JsDate)
    requires AtMidnight(start) && AtMidnight(end) && start.ms <= end.ms
    ensures |DayList(start, end)| == (end.ms - start.ms) / MsPerDay + 1
    ensures DayList(start, end)[|DayList(start, end)| - 1] == end
  {
    var days := DayList(start, end);
    var n := (end.ms - start.ms) / MsPerDay;
    assert end.ms - start.ms == n * MsPerDay by {
      assert start.ms == (start.ms / MsPerDay) * MsPerDay;
      assert end.ms == (end.ms / MsPerDay) * MsPerDay;
      assert (end.ms / MsPerDay - start.ms / MsPerDay) * MsPerDay == end.ms - start.ms;
    }
    assert days[n].ms == start.ms + n * MsPerDay;
  }

  /** A purchase held on a day is held on every later day. */
  lemma HeldLater(p: Purchase, d1: TimeValue, d2: TimeValue)
    requires Held(p, d1) && d1 <= d2
    ensures Held(p, d2)
  {
  }

  /** On a day before every purchase, the row's value and investment are both 0. */
  lemma {:induction false} NothingHeldYet(ps: seq<Purchase>, navMap: map<real, seq<Quote>>, day: TimeValue)
    requires forall i | 0 <= i < |ps| :: !Held(ps[i], day)
    ensures ValueOn(ps, navMap, day) == 0.0 && InvestedOn(ps, day) == 0.0
  {
    if ps != [] {
      NothingHeldYet(ps[..|ps| - 1], navMap, day);
    }
  }

  /**
   * When no series has a quote on or before the day, every held purchase is
   * valued at its purchase NAV, so the day shows no profit or loss.
   */
  lemma {:induction false} NoQuotesNoProfit(ps: seq<Purchase>, navMap: map<real, seq<Quote>>, day: TimeValue)
    requires forall i, j | 0 <= i < |ps| && 0 <= j < |SeriesIn(navMap, ps[i].schemeCode)| ::
      !OnOrBefore(SeriesIn(navMap, ps[i].schemeCode)[j], day)
    ensures ValueOn(ps, navMap, day) == InvestedOn(ps, day)
  {
    if ps != [] {
      var p := ps[|ps| - 1];
      NoQuotesNoProfit(ps[..|ps| - 1], navMap, day);
      assert HistoryQuote(SeriesIn(navMap, p.schemeCode), day).None? by {
        HistoryQuoteIsLast(SeriesIn(navMap, p.schemeCode), day);
      }
      NoQuoteAtPurchaseNav(p, navMap, day);
    }
  }

  /** A purchase whose series has no quote on or before the day is valued at its purchase NAV. */
  lemma NoQuoteAtPurchaseNav(p: Purchase, navMap: map<real, seq<Quote>>, day: TimeValue)
    requires HistoryQuote(SeriesIn(navMap, p.schemeCode), day).None?
    ensures ValueOf(p, navMap, day) == InvestedOf(p, day)
  {
  }

  /** With no purchase of negative cost, the amount invested never goes down from one day to a later one. */
  lemma {:induction false} InvestedMonotone(ps: seq<Purchase>, d1: TimeValue, d2: TimeValue)
    requires d1 <= d2
    requires forall i | 0 <= i < |ps| :: ps[i].units * ps[i].purchaseNav >= 0.0
    ensures InvestedOn(ps, d1) <= InvestedOn(ps, d2)
  {
    if ps != [] {
      var p := ps[|ps| - 1];
      InvestedMonotone(ps[..|ps| - 1], d1, d2);
      if Held(p, d1) {
        HeldLater(p, d1, d2);
      }
    }
  }

  // ------------------------------------------------ the corrected reference

  /** What one purchase would add with the latest quote on or before the day: the reference for ValueOf. */
  function LatestValueOf(p: Purchase, navMap: map<real, seq<Quote>>, day: TimeValue): real {
    if !Held(p, day) then 0.0
    else
      match LatestQuote(SeriesIn(navMap, p.schemeCode), day)
      case Some(q) => p.units * q.nav
      case None => p.units * p.purchaseNav
  }

  /** `totalValue` on a day with the latest quote on or before it: the reference for ValueOn. */
  function LatestValueOn(ps: seq<Purchase>, navMap: map<real, seq<Quote>>, day: TimeValue): real {
    if ps == [] then 0.0 else LatestValueOn(ps[..|ps| - 1], navMap, day) + LatestValueOf(ps[|ps| - 1], navMap, day)
  }

  /** On an oldest-first series, the lookup as written values a purchase as the latest quote does. */
  lemma SameQuoteSameValue(p: Purchase, navMap: map<real, seq<Quote>>, day: TimeValue)
    requires Ascending(SeriesIn(navMap, p.schemeCode))
    ensures ValueOf(p, navMap, day) == LatestValueOf(p, navMap, day)
  {
    var quotes := SeriesIn(navMap, p.schemeCode);
    HistoryQuoteAscending(quotes, day);
    SameQuoteSameNav(p, quotes, day);
  }

  lemma SameQuoteSameNav(p: Purchase, quotes: seq<Quote>, day: TimeValue)
    requires HistoryQuote(quotes, day) == LatestQuote(quotes, day)
    ensures NavOnDay(p, quotes, day) == if LatestQuote(quotes, day).Some? then LatestQuote(quotes, day).value.nav else p.purchaseNav
  {
  }

  /** When every series is stored oldest-first, the day's value as computed equals its value at the latest quotes. */
  lemma {:induction false} ValueOnAscending(ps: seq<Purchase>, navMap: map<real, seq<Quote>>, day: TimeValue)
    requires forall k | k in navMap :: Ascending(navMap[k])
    ensures ValueOn(ps, navMap, day) == LatestValueOn(ps, navMap, day)
  {
    if ps != [] {
      var p := ps[|ps| - 1];
      ValueOnAscending(ps[..|ps| - 1], navMap, day);
      assert Ascending(SeriesIn(navMap, p.schemeCode));
      SameQuoteSameValue(p, navMap, day);
    }
  }
}
