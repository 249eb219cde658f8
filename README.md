# Mutual-Fund portfolio service: a Dafny model

This project models the core of the Mutual-Fund tracker, an Express service.
Users sign up and log in, browse mutual-fund schemes and their NAV (net
asset value) history, and keep a portfolio of purchases. The portfolio is
valued at the latest NAV and day by day over a date range. The model covers:

- the portfolio controller: the input checks of `addFund` and `removeFund`; the purchase-NAV selection; `listPortfolio`; the grouping and totals of `portfolioValue`; the date helpers `formatDate`, `parseDDMMYYYY` and `normalizeDate`; and `portfolioHistory`, including its range, day enumeration, one history request per scheme and per-day valuation;
- the per-user sliding-window API rate limiter (`RateLimiterApi` and its map `userApiUsage`);
- the login-attempt window of `login`, the e-mail and password expressions, and the duplicate check of `signup`;
- the pagination values of `listFunds` and the response of `fundHistory`.

The database, the MFAPI provider and the clock are inputs. A user's
purchases are a `seq<Purchase>`. The provider is a function from scheme
code to `Fetch`: a failed request, a response without `data`, or the
series. `Date.now()` is a parameter `now`.

Modules, one file each:

| module | what it holds |
|---|---|
| `Wrappers` | `Option` and `Result` |
| `JsText` | the JavaScript coercions the controllers rely on: truthiness, `Number()`, `parseInt`, `String(n)`, `padStart`, `trim`, `split` |
| `Money` | `parseFloat(x.toFixed(k))` as rounding an exact real to k places |
| `Dates` | Dates as time values or Invalid Date, the ECMA-262 calendar, `new Date(y, m, d)`, and the three date helpers |
| `NavSeries` | provider entries and the three ways a series is read |
| `Holdings` | `addFund`, `removeFund` and `listPortfolio` |
| `Valuation` | `portfolioValue`: the grouping loop, `Object.values` key order and the totals |
| `History` | `portfolioHistory` |
| `RateLimiter` | the class `ApiLimiter` around `userApiUsage` |
| `Auth` | the regular expressions, `signup`, and the class `LoginGuard` around `loginAttempts` |
| `Funds` | `listFunds` pagination and `fundHistory` |

The loops of the source are methods with loop invariants, each proved
against a specification function. Examples are `Holdings.ListPortfolio`,
`Valuation.GroupPurchases`, `Valuation.CollectGroups`,
`History.EnumerateDays`, `History.FetchSeries`, `History.DayTotals` and
`History.DayRows`. The two module-level maps the source mutates are fields
of classes: `RateLimiter.ApiLimiter.usage` and `Auth.LoginGuard.attempts`.
The pure helpers and predicates are functions, and the properties relating
several calls are lemmas.

The model follows the code where it departs from the service's stated behaviour or from what its own comments say:

- `portfolioValue` does not fail soft. If any purchase's latest-NAV request fails or has no entries, reading `latest.data[0]` throws and the whole request answers 500 (`Valuation.PortfolioValue`).
- `asOn` is the latest-NAV date of the last purchase processed.
- The per-day NAV lookup of `portfolioHistory`, as written, takes the last stored quote on or before the day. That is the latest quote only on a series stored oldest-first. The model values the days with that lookup, `NavSeries.HistoryQuote`. The latest-quote valuation is the reference `History.LatestValueOn`, and `History.ValueOnAscending` proves the two equal on series stored oldest-first (see Findings).
- `new Date(y, m, d)` maps a year from 0 to 99 to 1900–1999. `normalizeDate` and `parseDDMMYYYY` inherit this. The model keeps it, so `parseDDMMYYYY(formatDate(d))` equals `normalizeDate(d)` only for years 0 and later. A negative year's `-` breaks the split.

## Model

| member | source | states |
|---|---|---|
| JsText.ParseInt | controllers/fundController.js:10-11 | `parseInt` yields a number exactly when, after leading white space and one sign, at least one decimal digit follows |
| JsText.DigitPrefixAll | controllers/fundController.js:10-11 | a run of digits is read by `parseInt` in full: it is its own digit prefix |
| JsText.ParseIntOfString | controllers/fundController.js:10-11 | `parseInt` inverts `String` on whole numbers: `parseInt(String(n))` is n, and `parseInt("-" + String(n))` is −n |
| JsText.DigitPrefix | controllers/fundController.js:10-11 | the digits `parseInt` reads are the longest all-digit prefix: the next character, if any, is not a digit |
| JsText.NatToStringDigits | controllers/portfolioController.js:243-245 | `String(n)` is a run of decimal digits spelling n, with no leading zero unless n is 0 |
| JsText.PaddedRoundTrip | controllers/portfolioController.js:243-244 | `String(n).padStart(2, "0")` is all digits and still spells n |
| JsText.NumberOfString | controllers/portfolioController.js:252 | `Number` of `String(n)`, padded or not, is n again |
| JsText.SplitJoin | controllers/portfolioController.js:252 | `split` loses nothing: joining the pieces with the separator gives back the string |
| JsText.Utf16Length | controllers/authController.js:15 | a string's UTF-16 length lies between its character count and twice that |
| JsText.Utf16LengthBmp | controllers/authController.js:15 | text with no character above U+FFFF has one code unit per character |
| JsText.SplitThree | controllers/portfolioController.js:386 | three digit runs joined by `-` split back into exactly those three runs |
| Money.RoundTo | controllers/portfolioController.js:227-230 | `toFixed(k)` moves a value by at most half a unit in the k-th decimal place |
| Money.RoundCents | controllers/portfolioController.js:214-216 | rounding to 2 places moves a value by at most half a cent |
| Money.RoundedDifference | controllers/portfolioController.js:227-229 | the rounded profit or loss and the difference of the rounded totals differ by at most 1.5 units of the last place |
| Dates.TimeClip | controllers/portfolioController.js:253 | a Date is valid exactly when its time value is within ±8.64e15 ms, and then it holds that value |
| Dates.DayFromYearFormula | controllers/portfolioController.js:253 | the year-by-year day count of 1 January agrees with ECMA-262's closed form |
| Dates.CivilFromDaysValid | controllers/portfolioController.js:243-245 | the calendar date read off day n (`getFullYear`, `getMonth`, `getDate`) is a valid date whose day number is n |
| Dates.NewDate | controllers/portfolioController.js:253 | a valid `new Date(y, m, d)` is at local midnight |
| Dates.NewDateOwnDay | controllers/portfolioController.js:253 | outside years 0–99, `new Date` on a valid date's fields is midnight of that date |
| Dates.NewDateTwoDigit | controllers/portfolioController.js:253 | with a year from 0 to 99, `new Date` gives midnight of that date in 1900–1999 |
| Dates.NormalizeDate | controllers/portfolioController.js:257-259 | a valid Date normalizes to a midnight; an Invalid Date stays invalid |
| Dates.NormalizeSameDay | controllers/portfolioController.js:257-259 | outside years 0–99, `normalizeDate(d)` is the midnight starting d's day: at or before d, less than a day before |
| Dates.NormalizeMidnight | controllers/portfolioController.js:257-259 | a midnight outside years 0–99 is left unchanged |
| Dates.NormalizeIdempotent | controllers/portfolioController.js:257-259 | normalizing twice is normalizing once, for every Date |
| Dates.TwoDigitNormalized | controllers/portfolioController.js:257-259 | a date in years 0–99 moves to 1900–1999, where it then stays |
| Dates.ParseDDMMYYYY | controllers/portfolioController.js:250-254 | the result is null exactly for the empty string |
| Dates.ParseOfFields | controllers/portfolioController.js:250-254 | a string splitting into three numeric fields parses to `new Date(year, month - 1, day)` |
| Dates.FormatShape | controllers/portfolioController.js:241-247 | `formatDate` writes two digits, `-`, two digits, `-`, then the year's digits, and the three fields spell the day, month and year |
| Dates.FormatSplit | controllers/portfolioController.js:241-247 | splitting `formatDate`'s text at `-` gives back its three fields |
| Dates.ParseFormat | controllers/portfolioController.js:241-259 | `parseDDMMYYYY(formatDate(d))` is `normalizeDate(d)` for every valid Date in year 0 or later |
| NavSeries.LatestEntry | controllers/portfolioController.js:113-115 | the latest entry exists exactly for a fetched, non-empty series, and is its entry 0 |
| NavSeries.FirstOnOrBefore | controllers/portfolioController.js:60 | `history.find` returns the first entry in provider order dated on or before the date, and none when none is |
| NavSeries.FindOnOrBefore | controllers/portfolioController.js:321-324 | `find` yields a quote exactly when one qualifies, and then the first one that does |
| NavSeries.Reverse | controllers/portfolioController.js:322-323 | the reversed series holds the same quotes in the opposite order |
| NavSeries.HistoryQuoteIsLast | controllers/portfolioController.js:321-324 | the lookup as written yields the last stored quote on or before the day, and none when no quote qualifies |
| NavSeries.LatestQuote | controllers/portfolioController.js:320-324 | the quote on or before the day with the latest date, present exactly when some quote qualifies |
| NavSeries.HistoryQuoteAscending | controllers/portfolioController.js:321-324 | on a series stored oldest-first, the lookup as written finds the latest quote on or before the day |
| NavSeries.HistoryQuoteNewestFirst | controllers/portfolioController.js:321-324 | on a newest-first series, the lookup as written returns an older quote than the latest one |
| Holdings.NotPositiveMeaning | controllers/portfolioController.js:12 | the three-part test (falsy, `isNaN`, `Number(x) <= 0`) refuses exactly the values whose `Number` is not a positive number |
| Holdings.PurchaseNav | controllers/portfolioController.js:53-71 | a purchase NAV is found exactly when the request succeeded and the first entry in provider order dated on or before the purchase has a non-zero NAV; the purchase NAV is that entry's NAV |
| Holdings.PurchaseNavNeedsDate | controllers/portfolioController.js:58-60 | against an Invalid Date no entry qualifies, so no purchase NAV is found |
| Holdings.AddFund | controllers/portfolioController.js:7-91 | each refusal (bad scheme code, bad units, fund unknown to both the Funds collection and MFAPI, no purchase NAV) happens exactly under its condition, in that order; a stored purchase has the positive numeric scheme code and units, the known name, the purchase date (now when none is given) and its purchase NAV |
| Holdings.RemoveFund | controllers/portfolioController.js:362-408 | each 400 (missing scheme code, missing date, non-numeric scheme code, a date lacking day, month or year) happens exactly under its condition; the 404 happens exactly when every check passes and nothing was deleted, and success exactly when every check passes and a fund was deleted; success carries the numeric code and the three date fields |
| Holdings.RemoveFundAcceptsDate | controllers/portfolioController.js:383-392 | a numeric scheme code and a date of three digit runs pass every check |
| Holdings.RowOf | controllers/portfolioController.js:109-135 | a row copies the holding, takes entry 0's NAV when there is one (null otherwise, also after a failed request), and has a value exactly when that NAV is non-zero |
| Holdings.CurrentValue | controllers/portfolioController.js:124 | the value is units × NAV to the cent, at most half a cent off |
| Holdings.ListPortfolio | controllers/portfolioController.js:99-145 | one row per holding, in order, each the row of its own provider response; `totalHoldings` is the row count, 0 for no holdings |
| Valuation.OnlyScheme | controllers/portfolioController.js:189-205 | a scheme's purchases are exactly the purchases with that scheme code |
| Valuation.SchemeSumIsTotalOfScheme | controllers/portfolioController.js:189-205 | each group's units, invested value, current value and profit or loss are sums over exactly that scheme's purchases |
| Valuation.GroupProfitLoss | controllers/portfolioController.js:185-205 | a group's profit or loss is its current value less its invested value |
| Valuation.Codes | controllers/portfolioController.js:190-200 | the object's keys are duplicate-free and include every purchased scheme |
| Valuation.CodesPurchased | controllers/portfolioController.js:190-200 | every key is some purchase's scheme code |
| Valuation.IndexKeys | controllers/portfolioController.js:209 | the array-index keys and the other keys together are the keys |
| Valuation.InsertSorted | controllers/portfolioController.js:209 | inserting a key into ascending keys keeps them ascending |
| Valuation.SortUp | controllers/portfolioController.js:209 | the index keys are put in ascending order, as a permutation |
| Valuation.ObjectKeyOrder | controllers/portfolioController.js:209 | `Object.values` visits the same keys: array indices in ascending order, then the rest in insertion order |
| Valuation.GroupsPartition | controllers/portfolioController.js:209-211 | over keys holding each purchased scheme once, the group sums add up to the sum over all purchases |
| Valuation.GroupPurchases | controllers/portfolioController.js:178-206 | the loop completes exactly when every purchase has a latest entry; the object then holds one group per scheme, with that scheme's sums, and `asOn` is the last purchase's latest date |
| Valuation.AddToGroups | controllers/portfolioController.js:185-205 | one purchase turns the groups of the purchases before it into the groups of those purchases and this one |
| Valuation.CollectGroups | controllers/portfolioController.js:209-218 | the rounded copies come in key order, and the accumulated totals are the sums over the groups |
| Valuation.Totals | controllers/portfolioController.js:220-233 | the totals go to 2 places, the profit or loss is current less invested, and the percentage is (P/L ÷ invested × 100) to 3 places, or 0 when nothing positive was invested |
| Valuation.TotalsOverGroups | controllers/portfolioController.js:209-222 | the totals over the groups equal the totals over all purchases |
| Valuation.PortfolioValue | controllers/portfolioController.js:157-239 | 404 for no purchases, 500 when any purchase lacks a latest entry, otherwise totals over all purchases, `asOn` from the last purchase, and one rounded group per key in `Object.values` order |
| Valuation.TwoPurchasesOneScheme | controllers/portfolioController.js:185-205 | two purchases of one scheme make one group: 150 units, 1600 invested, 2250 current, 650 profit |
| Valuation.UnitsConcatenate | controllers/portfolioController.js:202 | with units stored as text, `+=` concatenates: "5" and "3" give "053", read as 53 |
| Valuation.UnitsSummed | controllers/portfolioController.js:202 | with numeric units stored, one scheme's 5 and 3 units group to 8 |
| History.Today | controllers/portfolioController.js:267 | today is a midnight |
| History.Earliest | controllers/portfolioController.js:282-284 | `Math.min` over the purchase dates is a lower bound that is one of them |
| History.FirstPurchaseDay | controllers/portfolioController.js:282-284 | the first purchase day is a midnight |
| History.EffectiveStart | controllers/portfolioController.js:285 | the effective start is the later of the start and the first purchase day; an Invalid start stays invalid |
| History.DayList | controllers/portfolioController.js:288-291 | the days run from the start one day apart, all between start and end, stopping at the last day not after the end; there are none when the start is after the end |
| History.EnumerateDays | controllers/portfolioController.js:288-291 | the `setDate` loop lists exactly those days |
| History.DayListBetweenMidnights | controllers/portfolioController.js:288-291 | between two midnights the list has end − start + 1 days, inclusive, and its last day is the end |
| History.DefaultRange | controllers/portfolioController.js:267-273 | with no query dates and older purchases, the range is the 31 days from 30 days before today to today |
| History.QuotesOf | controllers/portfolioController.js:297-300 | a series converts exactly when every entry has a date; each quote is its entry's normalised date and NAV |
| History.NavMapOf | controllers/portfolioController.js:294-303 | the map's keys are the purchased schemes, each mapped to its own quotes |
| History.NavMapOfUnique | controllers/portfolioController.js:294-303 | any map with those keys and values is that map |
| History.FetchSeries | controllers/portfolioController.js:294-303 | the loop completes exactly when every scheme's series is available; it requests each scheme once, in order of first appearance, and fills the map |
| History.ValueStep | controllers/portfolioController.js:328-329 | one more purchase adds its own contribution to both day totals |
| History.AddPurchase | controllers/portfolioController.js:312-330 | a purchase after the day adds nothing; otherwise it adds units × the NAV of the last stored quote on or before the day (purchase NAV when no quote qualifies) and units × purchase NAV |
| History.DayTotals | controllers/portfolioController.js:308-330 | the inner loop's totals are the day's value and investment over all purchases, each purchase valued at the last stored quote on or before the day |
| History.SnapshotOf | controllers/portfolioController.js:332-336 | the row carries `formatDate` of the day, and value and profit or loss each within half a cent |
| History.OneDay | controllers/portfolioController.js:310-336 | the outer loop's body pushes the row of its day |
| History.DayRows | controllers/portfolioController.js:308-337 | one row per listed day, in order |
| History.PortfolioHistory | controllers/portfolioController.js:262-347 | 404 for no purchases, 500 when a scheme's series is unavailable, otherwise one row per day of the clamped range, each the row of that day |
| History.HeldLater | controllers/portfolioController.js:315 | a purchase held on a day is held on every later day |
| History.NothingHeldYet | controllers/portfolioController.js:312-316 | before every purchase, a day's value and investment are both 0 |
| History.NoQuoteAtPurchaseNav | controllers/portfolioController.js:326 | a purchase without a quote on or before the day is valued at its purchase NAV |
| History.NoQuotesNoProfit | controllers/portfolioController.js:321-329 | when no series has a quote yet, the day shows no profit or loss |
| History.InvestedMonotone | controllers/portfolioController.js:329 | the amount invested never goes down from one day to a later one |
| History.SameQuoteSameValue | controllers/portfolioController.js:320-328 | on an oldest-first series, a purchase's value with the lookup as written equals its value at the latest quote on or before the day |
| History.ValueOnAscending | controllers/portfolioController.js:320-329 | with every series oldest-first, the day's total value as computed equals the total at the latest quotes, which the comment at line 320 asks for |
| RateLimiter.Recent | middleware/rateLimiter.js:12 | the filter keeps exactly the times less than a minute old, and never more than it had |
| RateLimiter.RecentIsSuffix | middleware/rateLimiter.js:12 | on times in order the filter drops the oldest part and keeps the rest in order |
| RateLimiter.RecentAgain | middleware/rateLimiter.js:12 | filtering again later is the same as filtering once at the later time |
| RateLimiter.InWindowWithinRecent | middleware/rateLimiter.js:12-14 | every earlier request in a minute-long window containing now survives the filter |
| RateLimiter.SteadyPrune | middleware/rateLimiter.js:9-12 | with a clock that never goes back, the pruned stored list is the user's accepted requests of the last minute |
| RateLimiter.AcceptKeepsWindows | middleware/rateLimiter.js:14-23 | accepting only when fewer than 100 recent requests remain keeps every user at 100 or fewer in any minute-long span |
| RateLimiter.RefuseInv | middleware/rateLimiter.js:14-19 | a refusal keeps the limiter's invariant |
| RateLimiter.AcceptInv | middleware/rateLimiter.js:14-23 | an acceptance keeps the invariant and the per-minute bound |
| RateLimiter.ApiLimiter.constructor | middleware/rateLimiter.js:1 | the map starts empty |
| RateLimiter.ApiLimiter.Request | middleware/rateLimiter.js:3-26 | a request is allowed exactly when fewer than 100 recent requests remain; a refusal leaves the map as it was; an acceptance stores the pruned list plus now for that user alone; stored lists never exceed 100; with a clock that never goes back, no user gets more than 100 accepted requests in any minute-long span |
| RateLimiter.ApiLimiter.Refuse | middleware/rateLimiter.js:14-19 | the 429 branch changes neither the map nor the accepted requests |
| RateLimiter.ApiLimiter.Accept | middleware/rateLimiter.js:22-23 | the accepting branch appends now to the pruned list and stores it for the user |
| Auth.EmailOkMeaning | controllers/authController.js:12 | the e-mail check accepts exactly: a run without white space or `@`, `@`, a run, then a `.` after the `@` with a non-empty run on each side of it |
| Auth.JoinedOk | controllers/authController.js:12 | three non-empty runs without white space or `@`, joined by `@` and `.`, are accepted |
| Auth.EmailRejects | controllers/authController.js:12 | two `@`s, an empty local part and an empty last label are refused |
| Auth.EmailAccepts | controllers/authController.js:12 | `a@b.c` is accepted |
| Auth.PasswordOkMeaning | controllers/authController.js:15 | the password check accepts exactly line-break-free strings of 8 or more UTF-16 code units with a lower-case letter, an upper-case letter, a digit, and a non-word character or `_` |
| Auth.PasswordExamples | controllers/authController.js:15 | a line break fails the check however strong the rest, and `_` counts as the special character |
| Auth.PasswordCountsCodeUnits | controllers/authController.js:15 | seven characters pass when one lies above U+FFFF, which is two code units; seven ASCII characters fail |
| Auth.Signup | controllers/authController.js:7-41 | a bad e-mail, a weak password and an existing user are refused exactly under their conditions, in that order; otherwise the user is added |
| Auth.SignupOnce | controllers/authController.js:37-41 | after a successful signup, a second one with the same e-mail is refused and adds nobody |
| Auth.LoginStepBounded | controllers/authController.js:106-135 | a stored record always holds between 1 and 5 failures |
| Auth.BadEmailUntouched | controllers/authController.js:85-93 | a malformed e-mail is answered 400 and leaves the record as it was |
| Auth.WindowRestarts | controllers/authController.js:106-111 | more than a minute after the first failure, counting restarts from this login |
| Auth.BlockedWithinWindow | controllers/authController.js:114-119 | within the minute, 5 failures refuse every login with 429 whatever the credentials, without touching the record |
| Auth.FailuresCounted | controllers/authController.js:122-135 | failures within a minute of the first one count up to 5 and stay there, keeping the first time |
| Auth.SixthLoginRefused | controllers/authController.js:97-135 | five failures within a minute block a sixth login in that minute |
| Auth.LoginGuard.constructor | controllers/authController.js:78 | the map starts empty |
| Auth.LoginGuard.Login | controllers/authController.js:80-138 | the answer is the login step's outcome; only this IP's record changes: set after a failure, deleted after a success, otherwise left alone |
| Funds.IntOr | controllers/fundController.js:10-11 | `parseInt(q)` with its fallback is never 0; it is the parsed value unless that is NaN or 0, when the fallback is used |
| Funds.Ceil | controllers/fundController.js:27 | `Math.ceil(x)` is the least whole number at or above x |
| Funds.TotalPagesCover | controllers/fundController.js:27 | with a positive limit, the page count is the fewest pages of that size holding all funds |
| Funds.ListFunds | controllers/fundController.js:9-54 | the tip is given exactly when no query parameter is supplied; page and limit fall back to 1 and 20; skip is (page − 1) × limit; totalPages is the ceiling of funds ÷ limit; `hasNext` iff page < totalPages; `hasPrev` iff page > 1 |
| Funds.TipMeansDefaults | controllers/fundController.js:10-41 | no query parameters give the tip, page 1, limit 20 and skip 0 |
| Funds.PageZero | controllers/fundController.js:10-41 | `page=0` loses the tip but still selects page 1 |
| Funds.NextPrevMeaning | controllers/fundController.js:12-54 | for a page of at least 1 and a positive limit, `hasNext` says funds remain after this page and `hasPrev` that the page does not start at the first fund |
| Funds.FundHistory | controllers/fundController.js:63-104 | 400 without a scheme code, 404 without a series or without the fund record, 500 when the request fails or the series is empty; otherwise entry 0's NAV and date and the first min(30, n) entries in provider order |
| Funds.HistoryIsFirstThirty | controllers/fundController.js:80-97 | with 30 or more entries the history is exactly the first 30 |

## Left out

- Valuation.PortfolioValue and Holdings.ListPortfolio: the provider is a function of the scheme code, so repeated requests for one scheme within a call are taken to answer alike. The service sends one uncached request per purchase (portfolioController.js lines 107-109 and 178-181), so a scheme bought twice could see one request fail after another succeeded (a 500 in `portfolioValue`), or two different NAVs, where the group's `currentNav` comes from the first and its `currentValue` mixes both.
- MongoDB, axios and `services/mutualFundService.js`: their results are inputs. These are purchase lists, fund records, provider responses as `Fetch`, the count of matching funds, and `removeFund`'s deletion outcome.
- Express plumbing, the routes, `index.js` startup, logging and the unused `portfolios` array: they are not part of the core logic.
- bcrypt and JWT: the user lookup and the password comparison are the booleans `userFound` and `passwordValid`, and no token is modelled.
- The cron job `startNavUpdateJob` and its helpers: they are scheduling plus I/O.
- Concurrency: each handler call runs to completion on its own. Interleaved `await`s of concurrent requests on the shared maps are not modelled.
- Floating point: money and NAVs are exact reals, so a NaN NAV cannot arise. `parseFloat(x.toFixed(k))` rounds the exact value, halves away from zero.
- `new Date(text)` on provider and request dates: it is the parameter `dateOf` or `entryDate`. The server's local time is taken to be UTC, so local midnight is a multiple of 86 400 000 ms and every day lasts that long. Other time zones and daylight-saving changes are not modelled.
- `removeFund`'s UTC range query built from an ISO string: only its input checks and the deletion outcome are modelled.
- `listFunds`' `$regex` search and the page of funds itself: only the pagination values are modelled. A negative page such as `?page=-1` gives a negative `skip` (line 12), which MongoDB's `.skip` refuses (line 34), so the service answers 500; `Funds.ListFunds` returns the pagination values instead.
- JsText.StringToNumber: only decimal literals with an optional sign and fraction are read. Hexadecimal, exponent and `Infinity` forms give NaN here, not their JavaScript values.
- JsText.ParseInt: decimal only. A `0x` prefix is not read as hexadecimal.
- JsText.ToNumber: request values are strings, numbers, booleans, null or undefined. Objects and arrays in a request body are not modelled.
- Holdings.AddFund: it stores `Number(units)` as the purchase's units, the corrected behaviour of the second finding. The text as received is not stored.

## Findings

| source | as written | input that shows it | evidently intended | confidence | as-written member | corrected member |
|---|---|---|---|---|---|---|
| controllers/portfolioController.js:321-324 | `navArray.slice().reverse().find(entry <= day)` takes the last stored quote on or before the day. The provider stores the series newest-first, which is why entry 0 is read as the latest NAV at lines 114 and 181, so this is the oldest qualifying quote | quotes (day 2, NAV 55) then (day 0, NAV 50), looked up for day 3: NAV 50 is used, not 55 | the latest quote on or before the day, as the comment at line 320 says | not executed | NavSeries.HistoryQuoteNewestFirst | NavSeries.LatestQuote |
| controllers/portfolioController.js:78 | `units` is stored as received. When the body carries it as text, `grouped[code].units += p.units` at line 202 concatenates onto the initial 0 | two purchases of one scheme with units "5" and "3": the group's units are "053", that is 53, not 8 | store `Number(units)`, so a group's units are the sum | not executed | Valuation.UnitsConcatenate | Valuation.UnitsSummed |
