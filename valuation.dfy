/**
 * `portfolioValue`: purchases are grouped by scheme code in a plain object,
 * each group sums its purchases' units, invested value, current value and
 * profit or loss, and the totals and percentage are taken over the groups in
 * `Object.values` order.
 */
module Valuation {
  import opened Wrappers
  import opened JsText
  import opened NavSeries
  import opened Holdings
  import opened Money

  /** One entry of the `grouped` object. */
  datatype Group = Group(
    schemeCode: real,
    schemeName: string,
    units: real,
    currentNav: real,
    currentValue: real,
    investedValue: real,
    profitLoss: real)

  /** The `portfolioValue` response body. */
  datatype Summary = Summary(
    totalInvestment: real,
    currentValue: real,
    profitLoss: real,
    profitLossPercent: real,
    asOn: string,
    holdings: seq<Group>)

  datatype ValueError =
    | NoHoldings   // 404
    | ServerError  // 500: a provider request failed or returned no latest entry

  /** The NAV of a scheme's latest entry (entry 0), 0 when there is none. */
  function CurrentNav(provider: real -> Fetch, code: real): real {
    match LatestEntry(provider(code))
    case Some(e) => e.nav
    case None => 0.0
  }

  /** Every purchase's scheme has a latest entry, so `latest.data[0].nav` does not throw. */
  predicate Priced(ps: seq<Purchase>, provider: real -> Fetch) {
    forall i | 0 <= i < |ps| :: LatestEntry(provider(ps[i].schemeCode)).Some?
  }

  /** The four per-purchase quantities the groups accumulate. */
  datatype Measure = Units | Invested | Current | ProfitLoss

  function MeasureOf(p: Purchase, m: Measure, provider: real -> Fetch): real {
    var invested := p.units * p.purchaseNav;
    var current := p.units * CurrentNav(provider, p.schemeCode);
    match m
    case Units => p.units
    case Invested => invested
    case Current => current
    case ProfitLoss => current - invested
  }

  /** The sum of a measure over all purchases. */
  function Total(ps: seq<Purchase>, m: Measure, provider: real -> Fetch): real {
    if ps == [] then 0.0
    else Total(ps[..|ps| - 1], m, provider) + MeasureOf(ps[|ps| - 1], m, provider)
  }

  /** The sum of a measure over the purchases of one scheme, accumulated in purchase order. */
  function SchemeSum(ps: seq<Purchase>, code: real, m: Measure, provider: real -> Fetch): real {
    if ps == [] then 0.0
    else
      var last := ps[|ps| - 1];
      SchemeSum(ps[..|ps| - 1], code, m, provider) + (if last.schemeCode == code then MeasureOf(last, m, provider) else 0.0)
  }

  /** The purchases of one scheme, in order. */
  function OnlyScheme(ps: seq<Purchase>, code: real): (r: seq<Purchase>)
    ensures forall p | p in r :: p in ps && p.schemeCode == code
    ensures forall i | 0 <= i < |ps| && ps[i].schemeCode == code :: ps[i] in r
  {
    if ps == [] then []
    else
      var init := OnlyScheme(ps[..|ps| - 1], code);
      assert forall i | 0 <= i < |ps| - 1 :: ps[i] == ps[..|ps| - 1][i];
      if ps[|ps| - 1].schemeCode == code then init + [ps[|ps| - 1]] else init
  }

  /** A group's sums are the totals over exactly that scheme's purchases. */
  lemma {:induction false} SchemeSumIsTotalOfScheme(ps: seq<Purchase>, code: real, m: Measure, provider: real -> Fetch)
    ensures SchemeSum(ps, code, m, provider) == Total(OnlyScheme(ps, code), m, provider)
  {
    if ps != [] {
      var init, last := ps[..|ps| - 1], ps[|ps| - 1];
      SchemeSumIsTotalOfScheme(init, code, m, provider);
      var before := Total(OnlyScheme(init, code), m, provider);
      if last.schemeCode == code {
        assert Total(OnlyScheme(ps, code), m, provider) == before + MeasureOf(last, m, provider) by {
          var r := OnlyScheme(init, code) + [last];
          assert OnlyScheme(ps, code) == r;
          assert r[..|r| - 1] == OnlyScheme(init, code);
        }
      } else {
        assert OnlyScheme(ps, code) == OnlyScheme(init, code);
      }
    }
  }

  /** A group's profit or loss, summed purchase by purchase, is its current value less its invested value. */
  lemma {:induction false} GroupProfitLoss(ps: seq<Purchase>, code: real, provider: real -> Fetch)
    ensures SchemeSum(ps, code, ProfitLoss, provider)
      == SchemeSum(ps, code, Current, provider) - SchemeSum(ps, code, Invested, provider)
  {
    if ps != [] {
      GroupProfitLoss(ps[..|ps| - 1], code, provider);
    }
  }

  /** The scheme codes in order of first appearance: the insertion order of the object's keys. */
  function Codes(ps: seq<Purchase>): (r: seq<real>)
    ensures NoDup(r)
    ensures forall i | 0 <= i < |ps| :: ps[i].schemeCode in r
  {
    if ps == [] then []
    else
      var init := ps[..|ps| - 1];
      var r := Codes(init);
      assert forall i | 0 <= i < |ps| - 1 :: ps[i] == init[i];
      if ps[|ps| - 1].schemeCode in r then r else r + [ps[|ps| - 1].schemeCode]
  }

  /** Every key is the scheme code of some purchase. */
  lemma {:induction false} CodesPurchased(ps: seq<Purchase>, c: real)
    requires c in Codes(ps)
    ensures exists i | 0 <= i < |ps| :: ps[i].schemeCode == c
  {
    var init := ps[..|ps| - 1];
    if c in Codes(init) {
      CodesPurchased(init, c);
      var i :| 0 <= i < |init| && init[i].schemeCode == c;
      assert ps[i] == init[i];
    } else {
      assert ps[|ps| - 1].schemeCode == c;
    }
  }

  predicate NoDup(s: seq<real>) {
    forall i, j | 0 <= i < j < |s| :: s[i] != s[j]
  }

  /** The scheme name of the first purchase of a scheme: the one that created its group. */
  function FirstName(ps: seq<Purchase>, code: real): string {
    if ps == [] then ""
    else
      var init := ps[..|ps| - 1];
      if code in Codes(init) then FirstName(init, code)
      else if ps[|ps| - 1].schemeCode == code then ps[|ps| - 1].schemeName
      else ""
  }

  /** The group of one scheme after all of `ps`, before rounding. */
  function GroupOf(ps: seq<Purchase>, code: real, provider: real -> Fetch): Group {
    Group(code, FirstName(ps, code), SchemeSum(ps, code, Units, provider), CurrentNav(provider, code),
      SchemeSum(ps, code, Current, provider), SchemeSum(ps, code, Invested, provider),
      SchemeSum(ps, code, ProfitLoss, provider))
  }

  /** The `...h` copy with the three money fields to 2 places. */
  function Rounded(g: Group): Group {
    g.(currentValue := RoundTo(g.currentValue, 2), investedValue := RoundTo(g.investedValue, 2),
       profitLoss := RoundTo(g.profitLoss, 2))
  }

  // ------------------------------------------------------ Object.values order

  /** A property key that is an array index, i.e. `String(k)` is the canonical text of an integer below 2^32 - 1. */
  predicate IsArrayIndex(k: real) {
    k.Floor as real == k && 0.0 <= k < 4294967295.0
  }

  function IndexKeys(ks: seq<real>): (r: seq<real>)
    ensures forall k | k in r :: IsArrayIndex(k)
    ensures multiset(r) + multiset(OtherKeys(ks)) == multiset(ks)
  {
    if ks == [] then []
    else
      var rest := IndexKeys(ks[1..]);
      assert ks == [ks[0]] + ks[1..];
      if IsArrayIndex(ks[0]) then [ks[0]] + rest else rest
  }

  function OtherKeys(ks: seq<real>): (r: seq<real>)
    ensures forall k | k in r :: !IsArrayIndex(k)
  {
    if ks == [] then []
    else
      var rest := OtherKeys(ks[1..]);
      if IsArrayIndex(ks[0]) then rest else [ks[0]] + rest
  }

  predicate SortedUp(s: seq<real>) {
    forall i, j | 0 <= i < j < |s| :: s[i] <= s[j]
  }

  /** Inserting x into a list adds exactly one occurrence of x. */
  function Insert(x: real, s: seq<real>): (r: seq<real>)
    ensures multiset(r) == multiset(s) + multiset{x}
  {
    if s == [] || x <= s[0] then [x] + s
    else
      assert s == [s[0]] + s[1..];
      [s[0]] + Insert(x, s[1..])
  }

  /** Inserting into an ascending list keeps it ascending. */
  lemma {:induction false} InsertSorted(x: real, s: seq<real>)
    requires SortedUp(s)
    ensures SortedUp(Insert(x, s))
  {
    if s != [] && x > s[0] {
      var rest := Insert(x, s[1..]);
      InsertSorted(x, s[1..]);
      forall i | 0 <= i < |rest|
        ensures s[0] <= rest[i]
      {
        assert rest[i] in multiset(rest);
        if rest[i] != x {
          assert rest[i] in multiset(s[1..]);
        }
      }
      ConsSorted(s[0], rest);
    } else if s != [] {
      ConsSorted(x, s);
    }
  }

  /** A lower bound followed by an ascending list is ascending. */
  lemma ConsSorted(a: real, t: seq<real>)
    requires SortedUp(t) && forall i | 0 <= i < |t| :: a <= t[i]
    ensures SortedUp([a] + t)
  {
  }

  /** Insertion sort: an ascending permutation of s. */
  function SortUp(s: seq<real>): (r: seq<real>)
    ensures SortedUp(r) && multiset(r) == multiset(s)
  {
    if s == [] then []
    else
      assert s == [s[0]] + s[1..];
      InsertSorted(s[0], SortUp(s[1..]));
      Insert(s[0], SortUp(s[1..]))
  }

  /**
   * The order of `Object.values(grouped)` (OrdinaryOwnPropertyKeys, section
   * 10.1.11.1 of ECMA-262): array-index keys in ascending numeric order, then
   * the other keys in insertion order.
   */
  function ObjectKeyOrder(ks: seq<real>): (r: seq<real>)
    ensures multiset(r) == multiset(ks)
    ensures exists n | 0 <= n <= |r| ::
      && SortedUp(r[..n]) && (forall i | 0 <= i < n :: IsArrayIndex(r[i]))
      && r[n..] == OtherKeys(ks)
  {
    var idx := SortUp(IndexKeys(ks));
    var r := idx + OtherKeys(ks);
    assert r[..|idx|] == idx && r[|idx|..] == OtherKeys(ks);
    assert forall i | 0 <= i < |idx| :: idx[i] in multiset(IndexKeys(ks));
    r
  }

  /** Each key of a duplicate-free list occurs once. */
  lemma {:induction false} NoDupOnce(s: seq<real>, c: real)
    requires NoDup(s) && c in s
    ensures multiset(s)[c] == 1
  {
    assert s == [s[0]] + s[1..];
    if s[0] == c {
      assert c !in s[1..];
    } else {
      NoDupOnce(s[1..], c);
    }
  }

  // ------------------------------------------------------------- partition

  /** The sum of one measure over the groups of the keys `ks`, in list order. */
  function SumGroups(ks: seq<real>, ps: seq<Purchase>, m: Measure, provider: real -> Fetch): real {
    if ks == [] then 0.0
    else SumGroups(ks[..|ks| - 1], ps, m, provider) + SchemeSum(ps, ks[|ks| - 1], m, provider)
  }

  /** One more purchase adds its measure to the group sums when its code is among the keys, once. */
  lemma {:induction false} SumGroupsSnoc(ks: seq<real>, ps: seq<Purchase>, p: Purchase, m: Measure, provider: real -> Fetch)
    requires multiset(ks)[p.schemeCode] <= 1
    ensures SumGroups(ks, ps + [p], m, provider)
      == SumGroups(ks, ps, m, provider) + (if multiset(ks)[p.schemeCode] == 1 then MeasureOf(p, m, provider) else 0.0)
  {
    if ks != [] {
      var init := ks[..|ks| - 1];
      assert ks == init + [ks[|ks| - 1]];
      assert multiset(ks) == multiset(init) + multiset{ks[|ks| - 1]};
      SumGroupsSnoc(init, ps, p, m, provider);
      SchemeSumSnoc(ps, p, ks[|ks| - 1], m, provider);
    }
  }

  lemma SchemeSumSnoc(ps: seq<Purchase>, p: Purchase, code: real, m: Measure, provider: real -> Fetch)
    ensures SchemeSum(ps + [p], code, m, provider)
      == SchemeSum(ps, code, m, provider) + (if p.schemeCode == code then MeasureOf(p, m, provider) else 0.0)
  {
    assert (ps + [p])[..|ps|] == ps;
  }

  /**
   * The groups partition the purchases: over any key list holding each
   * purchased scheme exactly once, the group sums add up to the total.
   */
  lemma {:induction false} GroupsPartition(ks: seq<real>, ps: seq<Purchase>, m: Measure, provider: real -> Fetch)
    requires forall i | 0 <= i < |ps| :: multiset(ks)[ps[i].schemeCode] == 1
    ensures SumGroups(ks, ps, m, provider) == Total(ps, m, provider)
  {
    if ps == [] {
      ZeroGroups(ks, m, provider);
    } else {
      var init := ps[..|ps| - 1];
      var p := ps[|ps| - 1];
      GroupsPartition(ks, init, m, provider);
      assert init + [p] == ps;
      SumGroupsSnoc(ks, init, p, m, provider);
    }
  }

  lemma {:induction false} ZeroGroups(ks: seq<real>, m: Measure, provider: real -> Fetch)
    ensures SumGroups(ks, [], m, provider) == 0.0
  {
    if ks != [] {
      ZeroGroups(ks[..|ks| - 1], m, provider);
    }
  }

  // ------------------------------------------------------------ one step

  /** The object entry created for a scheme's first purchase. */
  function EmptyGroup(p: Purchase, nav: real): Group {
    Group(p.schemeCode, p.schemeName, 0.0, nav, 0.0, 0.0, 0.0)
  }

  /** The four `+=` updates one purchase makes to its group, at latest NAV `nav`. */
  function AddPurchase(g: Group, p: Purchase, nav: real): Group {
    var investedValue := p.units * p.purchaseNav;
    var currVal := p.units * nav;
    g.(units := g.units + p.units, currentValue := g.currentValue + currVal,
       investedValue := g.investedValue + investedValue, profitLoss := g.profitLoss + (currVal - investedValue))
  }

  /** A scheme not yet purchased has all sums 0. */
  lemma {:induction false} SchemeSumAbsent(ps: seq<Purchase>, code: real, m: Measure, provider: real -> Fetch)
    requires forall i | 0 <= i < |ps| :: ps[i].schemeCode != code
    ensures SchemeSum(ps, code, m, provider) == 0.0
  {
    if ps != [] {
      SchemeSumAbsent(ps[..|ps| - 1], code, m, provider);
    }
  }

  predicate GroupStepFacts(ps: seq<Purchase>, p: Purchase, k: real, provider: real -> Fetch) {
    var nav := CurrentNav(provider, k);
    var before := if k in Codes(ps) then GroupOf(ps, k, provider) else EmptyGroup(p, nav);
    && Codes(ps + [p]) == (if p.schemeCode in Codes(ps) then Codes(ps) else Codes(ps) + [p.schemeCode])
    && (k != p.schemeCode && k in Codes(ps) ==> GroupOf(ps + [p], k, provider) == GroupOf(ps, k, provider))
    && (k == p.schemeCode ==> GroupOf(ps + [p], k, provider) == AddPurchase(before, p, nav))
  }

  /** How one more purchase changes the keys and the groups. */
  lemma GroupStep(ps: seq<Purchase>, p: Purchase, k: real, provider: real -> Fetch)
    ensures GroupStepFacts(ps, p, k, provider)
  {
    var q := ps + [p];
    assert q[..|q| - 1] == ps;
    var nav := CurrentNav(provider, k);
    if k != p.schemeCode {
      if k in Codes(ps) {
        assert FirstName(q, k) == FirstName(ps, k);
      }
      SchemeSumSnoc(ps, p, k, Units, provider);
      SchemeSumSnoc(ps, p, k, Current, provider);
      SchemeSumSnoc(ps, p, k, Invested, provider);
      SchemeSumSnoc(ps, p, k, ProfitLoss, provider);
    } else {
      var before := if k in Codes(ps) then GroupOf(ps, k, provider) else EmptyGroup(p, nav);
      assert before.schemeName == FirstName(q, k);
      forall m: Measure ensures SchemeSum(q, k, m, provider) == SumOrZero(ps, k, m, provider) + MeasureOf(p, m, provider) {
        SchemeSumSnoc(ps, p, k, m, provider);
        if k !in Codes(ps) {
          SchemeSumAbsent(ps, k, m, provider);
        }
      }
      assert before.units == SumOrZero(ps, k, Units, provider);
      assert before.currentValue == SumOrZero(ps, k, Current, provider);
      assert before.investedValue == SumOrZero(ps, k, Invested, provider);
      assert before.profitLoss == SumOrZero(ps, k, ProfitLoss, provider);
    }
  }

  function SumOrZero(ps: seq<Purchase>, k: real, m: Measure, provider: real -> Fetch): real {
    if k in Codes(ps) then SchemeSum(ps, k, m, provider) else 0.0
  }

  // ------------------------------------------------------------ the method

  /** The key order of the response: insertion order of first appearance, rearranged as `Object.values` does. */
  function GroupOrder(ps: seq<Purchase>): seq<real> {
    ObjectKeyOrder(Codes(ps))
  }

  /** The percentage: P/L over investment times 100, or 0 when nothing positive was invested. */
  function Percent(invested: real, current: real): real {
    if invested > 0.0 then (current - invested) / invested * 100.0 else 0.0
  }

  /** The grouping loop's state: the object's keys in insertion order and its entries. */
  ghost predicate GroupedAfter(ps: seq<Purchase>, provider: real -> Fetch, keys: seq<real>, grouped: map<real, Group>) {
    && keys == Codes(ps)
    && (forall k :: k in grouped <==> k in keys)
    && (forall k | k in grouped :: grouped[k] == GroupOf(ps, k, provider))
  }

  /**
   * The `for (let p of purchases)` loop: one provider request per purchase,
   * stopping with `false` at the first scheme without a latest entry.
   */
  method GroupPurchases(ps: seq<Purchase>, provider: real -> Fetch)
    returns (ok: bool, keys: seq<real>, grouped: map<real, Group>, asOn: string)
    ensures ok <==> Priced(ps, provider)
    ensures ok ==> GroupedAfter(ps, provider, keys, grouped)
    ensures ok && |ps| > 0 ==> asOn == LatestEntry(provider(ps[|ps| - 1].schemeCode)).value.date
  {
    grouped, keys, asOn := map[], [], "";
    for i := 0 to |ps|
      invariant GroupedAfter(ps[..i], provider, keys, grouped)
      invariant Priced(ps[..i], provider)
      invariant i > 0 ==> asOn == LatestEntry(provider(ps[i - 1].schemeCode)).value.date
    {
      var p := ps[i];
      var latest := provider(p.schemeCode);
      if !(latest.Fetched? && |latest.data| > 0) {
        assert LatestEntry(provider(ps[i].schemeCode)).None?;
        return false, keys, grouped, asOn;
      }
      var currentNav := latest.data[0].nav;
      asOn := latest.data[0].date;
      grouped, keys := AddToGroups(ps[..i], p, provider, keys, grouped, currentNav);
      assert ps[..i + 1] == ps[..i] + [p];
    }
    assert ps[..|ps|] == ps;
    ok := true;
  }

  /** The body of the grouping loop for one purchase `p` whose latest NAV is `nav`. */
  method AddToGroups(ps: seq<Purchase>, p: Purchase, provider: real -> Fetch,
    keys: seq<real>, grouped: map<real, Group>, nav: real)
    returns (grouped': map<real, Group>, keys': seq<real>)
    requires GroupedAfter(ps, provider, keys, grouped)
    requires nav == CurrentNav(provider, p.schemeCode)
    ensures GroupedAfter(ps + [p], provider, keys', grouped')
  {
    grouped' := grouped;
    if p.schemeCode !in grouped' {
      grouped' := grouped'[p.schemeCode := EmptyGroup(p, nav)];
    }
    grouped' := grouped'[p.schemeCode := AddPurchase(grouped'[p.schemeCode], p, nav)];
    keys' := if p.schemeCode in keys then keys else keys + [p.schemeCode];
    GroupStep(ps, p, p.schemeCode, provider);
    forall k | k in grouped' ensures grouped'[k] == GroupOf(ps + [p], k, provider) {
      GroupStep(ps, p, k, provider);
    }
  }

  /**
   * `Object.values(grouped).map(...)`: the rounded copies in key order, and
   * the invested and current totals accumulated over the unrounded groups.
   */
  method CollectGroups(order: seq<real>, grouped: map<real, Group>, ps: seq<Purchase>, provider: real -> Fetch)
    returns (holdings: seq<Group>, totalInvestment: real, currentValue: real)
    requires forall k | k in order :: k in grouped && grouped[k] == GroupOf(ps, k, provider)
    ensures |holdings| == |order|
    ensures forall j | 0 <= j < |order| :: holdings[j] == Rounded(GroupOf(ps, order[j], provider))
    ensures totalInvestment == SumGroups(order, ps, Invested, provider)
    ensures currentValue == SumGroups(order, ps, Current, provider)
  {
    totalInvestment, currentValue, holdings := 0.0, 0.0, [];
    for j := 0 to |order|
      invariant |holdings| == j
      invariant forall t | 0 <= t < j :: holdings[t] == Rounded(GroupOf(ps, order[t], provider))
      invariant totalInvestment == SumGroups(order[..j], ps, Invested, provider)
      invariant currentValue == SumGroups(order[..j], ps, Current, provider)
    {
      assert order[j] in order;
      var h := grouped[order[j]];
      assert order[..j + 1][..j] == order[..j];
      totalInvestment := totalInvestment + h.investedValue;
      currentValue := currentValue + h.currentValue;
      holdings := holdings + [Rounded(h)];
    }
    assert order[..|order|] == order;
  }

  /**
   * The `// totals` figures of a response from the summed invested and
   * current values: each to 2 places, the profit or loss their difference,
   * and the percentage to 3 places.
   */
  predicate Reports(s: Summary, invested: real, current: real) {
    && s.totalInvestment == RoundTo(invested, 2)
    && s.currentValue == RoundTo(current, 2)
    && s.profitLoss == RoundTo(current - invested, 2)
    && s.profitLossPercent == RoundTo(Percent(invested, current), 3)
  }

  /** The `// totals` step and the response body. */
  method Totals(totalInvestment: real, currentValue: real, asOn: string, holdings: seq<Group>) returns (s: Summary)
    ensures Reports(s, totalInvestment, currentValue)
    ensures s.asOn == asOn && s.holdings == holdings
  {
    var profitLoss := currentValue - totalInvestment;
    var profitLossPercent := if totalInvestment > 0.0 then (profitLoss / totalInvestment) * 100.0 else 0.0;
    s := Summary(RoundTo(totalInvestment, 2), RoundTo(currentValue, 2), RoundTo(profitLoss, 2),
      RoundTo(profitLossPercent, 3), asOn, holdings);
  }

  /**
   * `portfolioValue` over the user's purchases; `provider` answers
   * `getLatestNAV`. Any purchase whose scheme has no latest entry ends the
   * request with a 500.
   */
  method PortfolioValue(ps: seq<Purchase>, provider: real -> Fetch) returns (r: Result<Summary, ValueError>)
    ensures |ps| == 0 ==> r == Err(NoHoldings)
    ensures |ps| > 0 && !Priced(ps, provider) ==> r == Err(ServerError)
    ensures |ps| > 0 && Priced(ps, provider) ==> r.Ok?
    ensures r.Ok? ==>
      && |ps| > 0
      && Reports(r.value, Total(ps, Invested, provider), Total(ps, Current, provider))
      && r.value.asOn == LatestEntry(provider(ps[|ps| - 1].schemeCode)).value.date
      && |r.value.holdings| == |GroupOrder(ps)|
      && forall j | 0 <= j < |r.value.holdings| :: r.value.holdings[j] == Rounded(GroupOf(ps, GroupOrder(ps)[j], provider))
  {
    if |ps| == 0 {
      return Err(NoHoldings);
    }
    var ok, keys, grouped, asOn := GroupPurchases(ps, provider);
    if !ok {
      return Err(ServerError);
    }
    var order := ObjectKeyOrder(keys);
    assert order == GroupOrder(ps);
    forall k | k in order ensures k in grouped && grouped[k] == GroupOf(ps, k, provider) {
      assert k in multiset(keys);
    }
    var holdings, totalInvestment, currentValue := CollectGroups(order, grouped, ps, provider);
    TotalsOverGroups(ps, provider);
    var summary := Totals(totalInvestment, currentValue, asOn, holdings);
    r := Ok(summary);
  }

  // --------------------------------------------------------------- lemmas

  /** The groups' invested and current values add up to the totals the response reports. */
  lemma TotalsOverGroups(ps: seq<Purchase>, provider: real -> Fetch)
    ensures SumGroups(GroupOrder(ps), ps, Invested, provider) == Total(ps, Invested, provider)
    ensures SumGroups(GroupOrder(ps), ps, Current, provider) == Total(ps, Current, provider)
  {
    var order := GroupOrder(ps);
    forall i | 0 <= i < |ps| ensures multiset(order)[ps[i].schemeCode] == 1 {
      NoDupOnce(Codes(ps), ps[i].schemeCode);
    }
    GroupsPartition(order, ps, Invested, provider);
    GroupsPartition(order, ps, Current, provider);
  }

  /**
   * Two purchases of one scheme, 100 units at NAV 10 and 50 units at NAV 12,
   * valued at a latest NAV of 15: one group of 150 units, 1600 invested,
   * 2250 current, 650 profit.
   */
  lemma TwoPurchasesOneScheme(provider: real -> Fetch, t1: Dates.TimeValue, t2: Dates.TimeValue)
    requires LatestEntry(provider(101.0)) == Some(NavEntry("02-01-2024", 15.0))
    ensures
      var ps := [Purchase(101.0, "Fund", 100.0, t1, 10.0), Purchase(101.0, "Fund", 50.0, t2, 12.0)];
      && GroupOf(ps, 101.0, provider) == Group(101.0, "Fund", 150.0, 15.0, 2250.0, 1600.0, 650.0)
      && Codes(ps) == [101.0]
  {
    var p0, p1 := Purchase(101.0, "Fund", 100.0, t1, 10.0), Purchase(101.0, "Fund", 50.0, t2, 12.0);
    assert CurrentNav(provider, 101.0) == 15.0;
    GroupStep([], p0, 101.0, provider);
    assert [] + [p0] == [p0];
    GroupStep([p0], p1, 101.0, provider);
    assert [p0] + [p1] == [p0, p1];
  }

  /**
   * The object stores `units` as received. When a request body carries
   * `units` as text, as in `{"units": "5"}`, `grouped[code].units += p.units`
   * concatenates onto the initial 0.
   */
  function UnitsAsWritten(units: seq<string>): string {
    if units == [] then "0" else UnitsAsWritten(units[..|units| - 1]) + units[|units| - 1]
  }

  /** Purchases of "5" and "3" units give the group units "053", read back as 53 rather than 8. */
  lemma UnitsConcatenate()
    ensures UnitsAsWritten(["5", "3"]) == "053"
    ensures StringToNumber("053") == Some(53.0)
    ensures StringToNumber("5") == Some(5.0) && StringToNumber("3") == Some(3.0)
  {
    assert UnitsAsWritten(["5", "3"]) == "053" by {
      assert ["5", "3"][..1] == ["5"];
      assert ["5"][..0] == [];
    }
    assert StringToNumber("053") == Some(53.0) by {
      assert DigitsValue("53") == 53 by {
        assert "53"[..1] == "5";
      }
      LeadingZero("53");
      assert "0" + "53" == "053";
      DigitsAsNumber("053");
    }
    assert StringToNumber("5") == Some(5.0) by {
      NumberOfString(5);
      assert NatToString(5) == "5";
    }
    assert StringToNumber("3") == Some(3.0) by {
      NumberOfString(3);
      assert NatToString(3) == "3";
    }
  }

  /** With `Number(units)` stored, the group's units are the plain sum: 5 and 3 give 8. */
  lemma UnitsSummed(provider: real -> Fetch, t: Dates.TimeValue)
    ensures
      var ps := [Purchase(7.0, "F", 5.0, t, 1.0), Purchase(7.0, "F", 3.0, t, 1.0)];
      GroupOf(ps, 7.0, provider).units == 8.0
  {
    var p0, p1 := Purchase(7.0, "F", 5.0, t, 1.0), Purchase(7.0, "F", 3.0, t, 1.0);
    GroupStep([], p0, 7.0, provider);
    assert [] + [p0] == [p0];
    GroupStep([p0], p1, 7.0, provider);
    assert [p0] + [p1] == [p0, p1];
  }
}
