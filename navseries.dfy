/**
 * NAV series as the MFAPI provider returns them, and the three ways the
 * portfolio controller reads one: the entry at index 0 as the latest NAV,
 * the first entry on or before a purchase date, and the per-day history
 * lookup that reverses the series and takes the first quote on or before
 * the day.
 */
module NavSeries {
  import opened Wrappers
  import opened Dates

  /** One element of the provider's `data` array: the date text ("DD-MM-YYYY") and the parsed NAV. */
  datatype NavEntry = NavEntry(date: string, nav: real)

  /** The outcome of one provider request: the request threw, the response had no `data`, or the series. */
  datatype Fetch = Failed | NoData | Fetched(data: seq<NavEntry>)

  /** `latest.data[0]`: present only for a fetched, non-empty series. */
  function LatestEntry(f: Fetch): (r: Option<NavEntry>)
    ensures r.Some? <==> f.Fetched? && |f.data| > 0
    ensures r.Some? ==> r.value == f.data[0]
  {
    if f.Fetched? && |f.data| > 0 then Some(f.data[0]) else None
  }

  /**
   * `history.find(entry => new Date(entry.date) <= when)`: the index of the
   * first entry, in provider order, whose date is on or before `when`. The
   * parse of the provider's date text is the parameter `dateOf`.
   */
  function FirstOnOrBefore(data: seq<NavEntry>, dateOf: string -> JsDate, when: JsDate): (r: Option<nat>)
    ensures r.Some? ==> r.value < |data| && AtOrBefore(dateOf(data[r.value].date), when)
    ensures r.Some? ==> forall i | 0 <= i < r.value :: !AtOrBefore(dateOf(data[i].date), when)
    ensures r.None? ==> forall i | 0 <= i < |data| :: !AtOrBefore(dateOf(data[i].date), when)
  {
    if data == [] then None
    else if AtOrBefore(dateOf(data[0].date), when) then Some(0)
    else
      match FirstOnOrBefore(data[1..], dateOf, when)
      case None => None
      case Some(k) => Some(k + 1)
  }

  /** A history quote: the normalised Date of the entry and its NAV. */
  datatype Quote = Quote(date: JsDate, nav: real)

  /** `entry.date.getTime() <= day`: false for an Invalid Date. */
  predicate OnOrBefore(q: Quote, day: TimeValue) {
    q.date.Time? && q.date.ms <= day
  }

  function Reverse<T>(s: seq<T>): (r: seq<T>)
    ensures |r| == |s| && forall i | 0 <= i < |s| :: r[i] == s[|s| - 1 - i]
  {
    if s == [] then [] else Reverse(s[1..]) + [s[0]]
  }

  /** `quotes.find(entry => entry.date.getTime() <= day)`: the first quote in order on or before the day. */
  function FindOnOrBefore(quotes: seq<Quote>, day: TimeValue): (r: Option<Quote>)
    ensures r.Some? <==> exists i | 0 <= i < |quotes| :: OnOrBefore(quotes[i], day)
    ensures r.Some? ==> exists i | 0 <= i < |quotes| ::
      && quotes[i] == r.value && OnOrBefore(quotes[i], day)
      && forall j | 0 <= j < i :: !OnOrBefore(quotes[j], day)
  {
    if quotes == [] then None
    else if OnOrBefore(quotes[0], day) then Some(quotes[0])
    else
      var r := FindOnOrBefore(quotes[1..], day);
      assert forall i | 1 <= i < |quotes| :: quotes[i] == quotes[1..][i - 1];
      r
  }

  /**
   * The lookup portfolioHistory performs: `navArray.slice().reverse().find(...)`.
   * It yields the quote stored LAST among those on or before the day.
   */
  function HistoryQuote(quotes: seq<Quote>, day: TimeValue): Option<Quote> {
    FindOnOrBefore(Reverse(quotes), day)
  }

  /** The history lookup picks the last stored quote on or before the day, and none when there is none. */
  lemma HistoryQuoteIsLast(quotes: seq<Quote>, day: TimeValue)
    ensures HistoryQuote(quotes, day).None? <==> forall i | 0 <= i < |quotes| :: !OnOrBefore(quotes[i], day)
    ensures HistoryQuote(quotes, day).Some? ==> exists i | 0 <= i < |quotes| ::
      && quotes[i] == HistoryQuote(quotes, day).value && OnOrBefore(quotes[i], day)
      && forall j | i < j < |quotes| :: !OnOrBefore(quotes[j], day)
  {
    var rev := Reverse(quotes);
    var n := |quotes|;
    if HistoryQuote(quotes, day).None? {
      forall i | 0 <= i < n ensures !OnOrBefore(quotes[i], day) {
        assert quotes[i] == rev[n - 1 - i];
      }
    } else {
      var k :| 0 <= k < n && rev[k] == HistoryQuote(quotes, day).value && OnOrBefore(rev[k], day)
        && forall j | 0 <= j < k :: !OnOrBefore(rev[j], day);
      var i := n - 1 - k;
      assert quotes[i] == rev[k];
      forall j | i < j < n ensures !OnOrBefore(quotes[j], day) {
        assert quotes[j] == rev[n - 1 - j];
      }
    }
  }

  /**
   * The quote on or before the day with the latest date: what the lookup's
   * comment ("latest NAV <= currentDate") asks for, whatever the stored
   * order. Among quotes with the same date the one stored last wins.
   */
  function LatestQuote(quotes: seq<Quote>, day: TimeValue): (r: Option<Quote>)
    ensures r.Some? <==> exists i | 0 <= i < |quotes| :: OnOrBefore(quotes[i], day)
    ensures r.Some? ==> r.value in quotes && OnOrBefore(r.value, day)
    ensures r.Some? ==> forall i | 0 <= i < |quotes| && OnOrBefore(quotes[i], day) :: quotes[i].date.ms <= r.value.date.ms
  {
    if quotes == [] then None
    else
      var init := quotes[..|quotes| - 1];
      var last := quotes[|quotes| - 1];
      var rest := LatestQuote(init, day);
      assert forall i | 0 <= i < |init| :: quotes[i] == init[i];
      assert quotes == init + [last];
      if !OnOrBefore(last, day) then rest
      else if rest.None? || rest.value.date.ms <= last.date.ms then Some(last)
      else rest
  }

  /** Valid dates never go down along the stored order. */
  predicate Ascending(quotes: seq<Quote>) {
    forall i, j | 0 <= i < j < |quotes| && quotes[i].date.Time? && quotes[j].date.Time? ::
      quotes[i].date.ms <= quotes[j].date.ms
  }

  /** On a series stored oldest-first, the history lookup does find the latest quote on or before the day. */
  lemma {:induction false} HistoryQuoteAscending(quotes: seq<Quote>, day: TimeValue)
    requires Ascending(quotes)
    ensures HistoryQuote(quotes, day) == LatestQuote(quotes, day)
  {
    if quotes != [] {
      var init := quotes[..|quotes| - 1];
      var last := quotes[|quotes| - 1];
      assert Ascending(init);
      HistoryQuoteAscending(init, day);
      assert Reverse(quotes) == [last] + Reverse(init) by {
        ReverseSnoc(init, last);
        assert init + [last] == quotes;
      }
      if !OnOrBefore(last, day) {
        assert Reverse(quotes)[1..] == Reverse(init);
      } else {
        var rest := LatestQuote(init, day);
        if rest.Some? {
          var i :| 0 <= i < |init| && init[i] == rest.value;
          assert quotes[i] == rest.value;
        }
      }
    }
  }

  lemma ReverseSnoc<T>(s: seq<T>, x: T)
    ensures Reverse(s + [x]) == [x] + Reverse(s)
  {
  }

  /**
   * On a newest-first series, the order the provider uses and index 0 of
   * which is read as the latest NAV elsewhere, the history lookup returns an
   * older quote than the latest one: a NAV of 50 from day 0 instead of 55
   * from day 2, for a day after both.
   */
  lemma HistoryQuoteNewestFirst()
    ensures
      var quotes := [Quote(Time(2 * MsPerDay), 55.0), Quote(Time(0), 50.0)];
      && HistoryQuote(quotes, 3 * MsPerDay) == Some(Quote(Time(0), 50.0))
      && LatestQuote(quotes, 3 * MsPerDay) == Some(Quote(Time(2 * MsPerDay), 55.0))
  {
    var quotes := [Quote(Time(2 * MsPerDay), 55.0), Quote(Time(0), 50.0)];
    assert Reverse(quotes) == [quotes[1], quotes[0]] by {
      assert Reverse(quotes[1..]) == [quotes[1]];
    }
    assert quotes[..1] == [quotes[0]];
  }
}
