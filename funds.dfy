/**
 * The fund controller's own arithmetic: the pagination values of
 * `listFunds` and the response of `fundHistory`. The Funds collection's
 * count and record, and the provider's series, are inputs. A query
 * parameter that is absent is the empty string, which both `parseInt` and
 * the truthiness test treat as an absent one.
 */
module Funds {
  import opened Wrappers
  import opened JsText
  import opened NavSeries

  const DefaultPage: int := 1
  const DefaultLimit: int := 20
  const HistoryLength: nat := 30

  /** `parseInt(q) || fallback`: NaN and 0 give the fallback. */
  function IntOr(q: string, fallback: int): (n: int)
    requires fallback != 0
    ensures n != 0
    ensures n == fallback <==> ParseInt(q).None? || ParseInt(q) == Some(0) || ParseInt(q) == Some(fallback)
    ensures n != fallback ==> ParseInt(q) == Some(n)
  {
    match ParseInt(q)
    case Some(v) => if v != 0 then v else fallback
    case None => fallback
  }

  /** `Math.ceil(x)`. */
  function Ceil(x: real): (r: int)
    ensures x <= r as real < x + 1.0
  {
    -((-x).Floor)
  }

  /** `Math.ceil(totalFunds / limit)`; the limit is never 0, the fallback replacing it. */
  function TotalPages(totalFunds: nat, limit: int): int
    requires limit != 0
  {
    Ceil(totalFunds as real / limit as real)
  }

  /** With a positive limit, the page count is the fewest pages of `limit` funds that hold them all. */
  lemma TotalPagesCover(totalFunds: nat, limit: int)
    requires limit >= 1
    ensures TotalPages(totalFunds, limit) >= 0
    ensures totalFunds <= TotalPages(totalFunds, limit) * limit < totalFunds + limit
  {
    var pages := TotalPages(totalFunds, limit);
    var t, l := totalFunds as real, limit as real;
    CeilScaled(t, l, pages as real);
    CastProduct(pages, limit);
  }

  /** A number within one of `t / l` above it, scaled by `l`, is within `l` of `t` above it. */
  lemma CeilScaled(t: real, l: real, q: real)
    requires l > 0.0 && t / l <= q < t / l + 1.0
    ensures t <= q * l < t + l
  {
    var x := t / l;
    var d := q - x;
    assert x * l == t;
    assert 0.0 <= d < 1.0;
    assert q * l == t + d * l;
    assert d * l < l;
  }

  lemma CastProduct(a: int, b: int)
    ensures (a * b) as real == a as real * b as real
  {
  }

  /** The response of `listFunds` apart from the funds themselves. */
  datatype Listing = Listing(
    tip: bool,
    currentPage: int,
    limit: int,
    skip: int,
    totalPages: int,
    totalFunds: nat,
    hasNext: bool,
    hasPrev: bool)

  /**
   * `listFunds` for the raw `search`, `page` and `limit` query strings and
   * the number of matching funds.
   */
  function ListFunds(search: string, page: string, limit: string, totalFunds: nat): (r: Listing)
    ensures r.tip <==> search == "" && page == "" && limit == ""
    ensures r.currentPage == IntOr(page, DefaultPage) && r.limit == IntOr(limit, DefaultLimit)
    ensures r.skip == (r.currentPage - 1) * r.limit
    ensures r.totalFunds == totalFunds
    ensures r.totalPages == TotalPages(totalFunds, r.limit)
    ensures r.hasNext <==> r.currentPage < r.totalPages
    ensures r.hasPrev <==> r.currentPage > 1
  {
    var p := IntOr(page, DefaultPage);
    var l := IntOr(limit, DefaultLimit);
    var pages := TotalPages(totalFunds, l);
    Listing(search == "" && page == "" && limit == "", p, l, (p - 1) * l, pages, totalFunds, p < pages, p > 1)
  }

  /** A request without query parameters gets the tip, page 1 of 20 funds from the start. */
  lemma TipMeansDefaults(totalFunds: nat)
    ensures var r := ListFunds("", "", "", totalFunds);
      r.tip && r.currentPage == 1 && r.limit == 20 && r.skip == 0
  {
    assert TrimStart("") == "";
  }

  /** `page=0` is truthy text, so it loses the tip, yet it still selects page 1. */
  lemma PageZero(totalFunds: nat)
    ensures var r := ListFunds("", "0", "", totalFunds);
      !r.tip && r.currentPage == 1
  {
    assert TrimStart("0") == "0";
    assert DigitPrefix("0") == "0";
  }

  /**
   * For a page of at least 1 and a positive limit, `hasNext` says funds remain
   * after this page and `hasPrev` that the page does not start at the first fund.
   */
  lemma NextPrevMeaning(search: string, page: string, limit: string, totalFunds: nat)
    requires var r := ListFunds(search, page, limit, totalFunds); r.currentPage >= 1 && r.limit >= 1
    ensures var r := ListFunds(search, page, limit, totalFunds);
      && (r.hasNext <==> r.skip + r.limit < totalFunds)
      && (r.hasPrev <==> r.skip > 0)
  {
    var r := ListFunds(search, page, limit, totalFunds);
    var p, l, pages := r.currentPage, r.limit, r.totalPages;
    TotalPagesCover(totalFunds, l);
    MulPred(p, l);
    if p < pages {
      MulMonotone(p, pages - 1, l);
      MulPred(pages, l);
    } else {
      MulMonotone(pages, p, l);
    }
    if p > 1 {
      MulMonotone(1, p - 1, l);
    }
  }

  lemma MulPred(a: int, k: int)
    ensures (a - 1) * k == a * k - k
  {
  }

  lemma MulMonotone(a: int, b: int, k: int)
    requires a <= b && k >= 0
    ensures a * k <= b * k
  {
    assert b * k - a * k == (b - a) * k;
  }

  // ------------------------------------------------------------ fundHistory

  /** The Funds collection's record of a scheme. */
  datatype FundRecord = FundRecord(schemeCode: real, schemeName: string)

  datatype HistoryError =
    | MissingSchemeCode  // 400
    | NoHistory          // 404
    | FundNotInDb        // 404
    | ServerError        // 500: the request threw, or the series was empty

  datatype FundHistoryView = FundHistoryView(
    schemeCode: real,
    schemeName: string,
    currentNav: real,
    asOn: string,
    history: seq<NavEntry>)

  function Min(a: nat, b: nat): nat {
    if a <= b then a else b
  }

  /**
   * `fundHistory` for the body's `schemeCode`, the provider's response and
   * the Funds record found for `Number(schemeCode)`. An empty series passes
   * the array check; reading `latest.nav` of its missing entry 0 then throws,
   * after the record lookup.
   */
  function FundHistory(schemeCode: JsValue, response: Fetch, fund: Option<FundRecord>): (r: Result<FundHistoryView, HistoryError>)
    ensures r == Err(MissingSchemeCode) <==> !Truthy(schemeCode)
    ensures r == Err(NoHistory) <==> Truthy(schemeCode) && response.NoData?
    ensures r == Err(FundNotInDb) <==> Truthy(schemeCode) && response.Fetched? && fund.None?
    ensures r == Err(ServerError) <==>
      Truthy(schemeCode) && (response.Failed? || (response.Fetched? && fund.Some? && response.data == []))
    ensures r.Ok? ==>
      && response.Fetched? && |response.data| > 0 && fund.Some?
      && r.value.schemeCode == fund.value.schemeCode && r.value.schemeName == fund.value.schemeName
      && r.value.currentNav == response.data[0].nav && r.value.asOn == response.data[0].date
      && |r.value.history| == Min(HistoryLength, |response.data|)
      && r.value.history == response.data[..|r.value.history|]
  {
    if !Truthy(schemeCode) then Err(MissingSchemeCode)
    else
      match response
      case Failed => Err(ServerError)
      case NoData => Err(NoHistory)
      case Fetched(data) =>
        if fund.None? then Err(FundNotInDb)
        else if data == [] then Err(ServerError)
        else
          var latest := data[0];
          var last30 := data[..Min(HistoryLength, |data|)];
          Ok(FundHistoryView(fund.value.schemeCode, fund.value.schemeName, latest.nav, latest.date, last30))
  }

  /** With 30 or more entries the history is exactly the first 30, latest first as the provider stores them. */
  lemma HistoryIsFirstThirty(schemeCode: JsValue, data: seq<NavEntry>, fund: FundRecord)
    requires Truthy(schemeCode) && |data| >= HistoryLength
    ensures FundHistory(schemeCode, Fetched(data), Some(fund)).Ok?
    ensures var h := FundHistory(schemeCode, Fetched(data), Some(fund)).value.history;
      |h| == 30 && forall i | 0 <= i < 30 :: h[i] == data[i]
  {
  }
}
