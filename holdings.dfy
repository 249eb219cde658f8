/**
 * The per-holding parts of the portfolio controller: the input checks and
 * purchase-NAV selection of `addFund`, the input checks of `removeFund`, and
 * `listPortfolio`. The Portfolio and Funds collections and the provider are
 * inputs: a holding list, the fund-name lookups, and one `Fetch` per request.
 */
module Holdings {
  import opened Wrappers
  import opened JsText
  import opened Dates
  import opened NavSeries
  import Money

  /** A stored Portfolio document (user id and creation time left out). */
  datatype Purchase = Purchase(
    schemeCode: real,
    schemeName: string,
    units: real,
    purchaseDate: TimeValue,
    purchaseNav: real)

  /** `!x || isNaN(x) || Number(x) <= 0`: the refusal test for schemeCode and units. */
  predicate NotPositive(x: JsValue) {
    !Truthy(x) || ToNumber(x).None? || ToNumber(x).value <= 0.0
  }

  /** The three-part test refuses exactly the values whose `Number` is not a positive number. */
  lemma NotPositiveMeaning(x: JsValue)
    ensures NotPositive(x) <==> !(ToNumber(x).Some? && ToNumber(x).value > 0.0)
  {
    if !Truthy(x) {
      match x
      case Str(s) =>
        assert s == "";
        assert Trim(s) == "";
      case _ =>
    }
  }

  datatype AddFundError =
    | InvalidSchemeCode   // 400
    | InvalidUnits        // 400
    | FundNotFound        // 404
    | NoPurchaseNav       // 400

  /**
   * The purchase NAV: the NAV of the first entry in provider order dated on
   * or before `when`; none when the request failed, the response had no
   * series, no entry qualifies, or that NAV is 0 (`!purchaseNav`).
   */
  function PurchaseNav(history: Fetch, dateOf: string -> JsDate, when: JsDate): (r: Option<real>)
    ensures r.Some? ==> r.value != 0.0
    ensures r.Some? <==>
      && history.Fetched?
      && FirstOnOrBefore(history.data, dateOf, when).Some?
      && history.data[FirstOnOrBefore(history.data, dateOf, when).value].nav != 0.0
    ensures r.Some? ==> r.value == history.data[FirstOnOrBefore(history.data, dateOf, when).value].nav
  {
    match history
    case Fetched(data) =>
      (match FirstOnOrBefore(data, dateOf, when)
       case Some(i) => if data[i].nav != 0.0 then Some(data[i].nav) else None
       case None => None)
    case _ => None
  }

  /** Without a valid date to compare against, no purchase NAV is found. */
  lemma PurchaseNavNeedsDate(history: Fetch, dateOf: string -> JsDate)
    ensures PurchaseNav(history, dateOf, Invalid).None?
  {
  }

  /** `purchaseDate ? new Date(purchaseDate) : new Date()`. */
  function PurchaseWhen(purchaseDate: JsValue, dateOf: JsValue -> JsDate, now: TimeValue): JsDate {
    if Truthy(purchaseDate) then dateOf(purchaseDate) else Time(now)
  }

  /**
   * `addFund`. `storedName` is the Funds collection's record for the scheme
   * and `providerName` the scheme name from MFAPI's `meta` (`None` when that
   * request fails); `history` is the second MFAPI request; `dateOf` is `new
   * Date(text)`; `now` the clock. The stored units are `Number(units)`.
   */
  function AddFund(
    schemeCode: JsValue, units: JsValue, purchaseDate: JsValue,
    storedName: Option<string>, providerName: Option<string>,
    history: Fetch, dateOf: JsValue -> JsDate, entryDate: string -> JsDate, now: TimeValue): (r: Result<Purchase, AddFundError>)
    ensures r == Err(InvalidSchemeCode) <==> NotPositive(schemeCode)
    ensures r == Err(InvalidUnits) <==> !NotPositive(schemeCode) && NotPositive(units)
    ensures r == Err(FundNotFound) <==> !NotPositive(schemeCode) && !NotPositive(units) && storedName.None? && providerName.None?
    ensures r.Ok? ==>
      && ToNumber(schemeCode) == Some(r.value.schemeCode) && r.value.schemeCode > 0.0
      && ToNumber(units) == Some(r.value.units) && r.value.units > 0.0
      && r.value.schemeName == (if storedName.Some? then storedName.value else providerName.value)
      && PurchaseWhen(purchaseDate, dateOf, now) == Time(r.value.purchaseDate)
      && Some(r.value.purchaseNav) == PurchaseNav(history, entryDate, Time(r.value.purchaseDate))
    ensures r == Err(NoPurchaseNav) <==>
      && !NotPositive(schemeCode) && !NotPositive(units) && (storedName.Some? || providerName.Some?)
      && PurchaseNav(history, entryDate, PurchaseWhen(purchaseDate, dateOf, now)).None?
  {
    if NotPositive(schemeCode) then Err(InvalidSchemeCode)
    else if NotPositive(units) then Err(InvalidUnits)
    else if storedName.None? && providerName.None? then Err(FundNotFound)
    else
      var name := if storedName.Some? then storedName.value else providerName.value;
      var when := PurchaseWhen(purchaseDate, dateOf, now);
      match PurchaseNav(history, entryDate, when)
      case None => Err(NoPurchaseNav)
      case Some(nav) =>
        Ok(Purchase(ToNumber(schemeCode).value, name, ToNumber(units).value, when.ms, nav))
  }

  datatype RemoveFundError =
    | MissingSchemeCode   // 400
    | MissingPurchaseDate // 400
    | SchemeCodeNotNumber // 400
    | BadDateFormat       // 400
    | NoMatchingFund      // 404

  /** The parts of a `removeFund` request that reach the delete: the scheme code and the date's three fields. */
  datatype RemoveRequest = RemoveRequest(schemeCode: real, day: string, month: string, year: string)

  /** The i-th element of `s.split("-")`, or "" where it is `undefined`. */
  function FieldAt(parts: seq<string>, i: nat): string {
    if i < |parts| then parts[i] else ""
  }

  /**
   * `removeFund`'s checks on the query strings (an absent parameter is ""),
   * then the delete's outcome, `deleted`, supplied by the caller.
   */
  function RemoveFund(schemeCode: string, purchaseDate: string, deleted: bool): (r: Result<RemoveRequest, RemoveFundError>)
    ensures r == Err(MissingSchemeCode) <==> schemeCode == ""
    ensures r == Err(MissingPurchaseDate) <==> schemeCode != "" && purchaseDate == ""
    ensures r == Err(SchemeCodeNotNumber) <==> schemeCode != "" && purchaseDate != "" && StringToNumber(schemeCode).None?
    ensures r == Err(BadDateFormat) <==>
      && schemeCode != "" && purchaseDate != "" && StringToNumber(schemeCode).Some?
      && (|Split(purchaseDate, '-')| < 3 || exists i | 0 <= i < 3 :: Split(purchaseDate, '-')[i] == "")
    ensures r == Err(NoMatchingFund) <==>
      && schemeCode != "" && purchaseDate != "" && StringToNumber(schemeCode).Some?
      && |Split(purchaseDate, '-')| >= 3 && (forall i | 0 <= i < 3 :: Split(purchaseDate, '-')[i] != "")
      && !deleted
    ensures r.Ok? <==>
      && schemeCode != "" && purchaseDate != "" && StringToNumber(schemeCode).Some?
      && |Split(purchaseDate, '-')| >= 3 && (forall i | 0 <= i < 3 :: Split(purchaseDate, '-')[i] != "")
      && deleted
    ensures r.Ok? ==> Some(r.value.schemeCode) == StringToNumber(schemeCode)
    ensures r.Ok? ==> [r.value.day, r.value.month, r.value.year] == Split(purchaseDate, '-')[..3]
    ensures r.Ok? ==> r.value.day != "" && r.value.month != "" && r.value.year != ""
  {
    if schemeCode == "" then Err(MissingSchemeCode)
    else if purchaseDate == "" then Err(MissingPurchaseDate)
    else if StringToNumber(schemeCode).None? then Err(SchemeCodeNotNumber)
    else
      var parts := Split(purchaseDate, '-');
      var day, month, year := FieldAt(parts, 0), FieldAt(parts, 1), FieldAt(parts, 2);
      if day == "" || month == "" || year == "" then Err(BadDateFormat)
      else if !deleted then Err(NoMatchingFund)
      else Ok(RemoveRequest(StringToNumber(schemeCode).value, day, month, year))
  }

  /** A numeric scheme code and a date written as three digit runs pass every check. */
  lemma RemoveFundAcceptsDate(schemeCode: nat, day: string, month: string, year: string)
    requires |day| >= 1 && |month| >= 1 && |year| >= 1
    requires AllDigits(day) && AllDigits(month) && AllDigits(year)
    ensures RemoveFund(NatToString(schemeCode), day + "-" + month + "-" + year, true)
      == Ok(RemoveRequest(schemeCode as real, day, month, year))
  {
    var s := day + "-" + month + "-" + year;
    SplitThree(day, month, year);
    assert Split(s, '-')[..3] == Split(s, '-');
    NumberOfString(schemeCode);
  }

  // ---------------------------------------------------------- listPortfolio

  /** One row of `listPortfolio`. */
  datatype HoldingRow = HoldingRow(
    schemeCode: real,
    schemeName: string,
    units: real,
    currentNav: Option<real>,
    currentValue: Option<real>)

  /**
   * The row for one holding and its provider response: the NAV of entry 0
   * when there is one (a failed request, a missing or empty series give null
   * fields), and the value `units * nav` to 2 places unless that NAV is 0.
   */
  function RowOf(h: Purchase, f: Fetch): (row: HoldingRow)
    ensures row.schemeCode == h.schemeCode && row.schemeName == h.schemeName && row.units == h.units
    ensures row.currentNav.Some? <==> LatestEntry(f).Some?
    ensures row.currentNav.Some? ==> row.currentNav.value == LatestEntry(f).value.nav
    ensures row.currentValue.Some? <==> row.currentNav.Some? && row.currentNav.value != 0.0
    ensures row.currentValue.Some? ==> row.currentValue.value == CurrentValue(h.units, row.currentNav.value)
  {
    var nav := match LatestEntry(f) case Some(e) => Some(e.nav) case None => None;
    var value := if nav.Some? && nav.value != 0.0 then Some(CurrentValue(h.units, nav.value)) else None;
    HoldingRow(h.schemeCode, h.schemeName, h.units, nav, value)
  }

  /** `parseFloat((units * nav).toFixed(2))`: the value to the cent. */
  function CurrentValue(units: real, nav: real): (v: real)
    ensures -0.005 <= v - units * nav <= 0.005
  {
    Money.RoundCents(units * nav);
    Money.RoundTo(units * nav, 2)
  }

  /** The `listPortfolio` response body: `totalHoldings` and the rows. */
  datatype HoldingList = HoldingList(totalHoldings: nat, holdings: seq<HoldingRow>)

  /**
   * `listPortfolio`: one row per holding, in order; each holding makes its
   * own provider request and a failure there only nulls that row.
   */
  method ListPortfolio(holdings: seq<Purchase>, provider: real -> Fetch) returns (r: HoldingList)
    ensures r.totalHoldings == |r.holdings| == |holdings|
    ensures forall i | 0 <= i < |holdings| :: r.holdings[i] == RowOf(holdings[i], provider(holdings[i].schemeCode))
  {
    if |holdings| == 0 {
      return HoldingList(0, []);
    }
    var result: seq<HoldingRow> := [];
    for i := 0 to |holdings|
      invariant |result| == i
      invariant forall k | 0 <= k < i :: result[k] == RowOf(holdings[k], provider(holdings[k].schemeCode))
    {
      var h := holdings[i];
      var navData := provider(h.schemeCode);
      result := result + [RowOf(h, navData)];
    }
    r := HoldingList(|result|, result);
  }
}
