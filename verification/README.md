# HFinance core, modelled in Dafny

HFinance is a personal-finance web application. Users keep portfolios of
holdings, file the holdings under named groups, and ask the back end for
analytics in their base currency. The analytics come from live quotes and from
the European Central Bank's EUR reference rates. This project models the logic
at the centre of that back end and proves properties of the model:

- **Portfolio analytics** (`PortfolioAnalytics`, `PortfolioSnapshots`). The loop
  values each quoted holding and counts the unquoted ones. Then come the
  totals, the zero-guarded P/L percentages, the group allocations and currency
  exposures sorted by market value, and the snapshot row built from a report.
  The snapshot listing and the time series filter by an inclusive date window
  and sort the rows.
- **The ECB rate provider** (`EcbFxRates`). Conversion pivots through EUR and
  rounds to four places, half away from zero. The Cube scan keeps the last
  valid USD and RON rates and the last date. The rate cache has two slots: a
  30-minute primary slot and a 2-day last-known-good slot.
- **The currency helper** (`CurrencyHelper`): the trim-and-upper-case
  normaliser and the EUR/USD/RON allow-list, which ignores case.
- **Groups** (`Groups`): the default-group insert-if-absent, listing,
  creation with its case-insensitive name check, renaming, and deletion.
  Deleting a group moves its holdings to the default group.
- **Holdings** (`Holdings`): ownership checks, the list and single reads,
  creation and update with symbol and currency normalisation, deletion, and
  the mapping to the DTO.
- **Admin user management** (`AdminUsers`):
  - paging clamps, filtering, ordering and skip/take;
  - the email-conflict rule;
  - status changes;
  - role-list normalisation and validation.
- **The quote service** (`MarketData`): symbol normalisation, the 45-second
  quote cache, the field mapping with its fallbacks, and historical bars
  sorted by date.
- **The front end's toast list** (`UiToast`): a list of messages whose ids
  come from an increasing counter.

Modelling choices:

- C# `decimal` values are exact `real`s. `decimal.Round(x, 2)` (half to even)
  and `decimal.Round(x, 4, MidpointRounding.AwayFromZero)` are two separate
  functions in `DecimalMath`.
- Instants are whole seconds (`Time.Instant`). A `DateTime`'s `.Date` is the
  start of its day.
- The database is one class, `Store.Database`, with a sequence per table and
  the next identity value of each table. Controller actions are methods on it.
  Their `modifies`/`ensures` state the whole new state of every table and
  identity counter.
- The caller's id is an `Option<string>`, with None for a missing claim.
- An upstream security maps each field it carries to its value or null. A
  field the answer leaves out is absent; the `Security` indexer throws on it,
  so the quote lookup returns null.
- Exceptions thrown by the rate provider become `Failure` values, and so does a
  conversion between unsupported currencies.
- Quotes, rate fetches, the clock and the text-to-number and text-to-date
  parsers are parameters.

Every table row below names a member whose `ensures` states the property.

## Model

| member | source | states |
|---|---|---|
| DecimalMath.Round2 | backend/Services/PortfolioAnalyticsService.cs:76 | `decimal.Round(x, 2)` moves x by at most half a cent |
| DecimalMath.Round2Digits | backend/Services/PortfolioAnalyticsService.cs:112-114 | the rounded value has two decimals, a tie goes to the even cent, and a value that already has two decimals is unchanged |
| DecimalMath.NearestAwayFromZero | backend/Services/EcbFxRateService.cs:75 | the nearest integer, with halves resolved away from zero |
| DecimalMath.Round4AwayFromZero | backend/Services/EcbFxRateService.cs:75 | the four-place result is within 0.00005 of x, and a tie moves away from zero |
| DecimalMath.Round4AwayFromZeroDigits | backend/Services/EcbFxRateService.cs:75 | the result has four decimals, and a value that already has four decimals is a fixed point |
| DecimalMath.Round4AwayFromZeroOdd | backend/Services/EcbFxRateService.cs:75 | rounding commutes with negation (symmetric about zero) |
| Time.DatePart | backend/Services/EcbFxRateService.cs:126 | `.Date` is the midnight that starts the instant's day |
| Text.TrimSpec | backend/Services/CurrencyHelper.cs:14 | `Trim` removes exactly the leading and trailing white space, leaves the rest in place, and yields "" exactly for blank text |
| Text.TrimIdempotent | backend/Services/CurrencyHelper.cs:14 | trimming twice is trimming once |
| Text.ToUpper | backend/Services/CurrencyHelper.cs:14 | `ToUpperInvariant` upper-cases each character and keeps the length |
| Text.ToUpperIdempotent | backend/Services/CurrencyHelper.cs:14 | upper-casing twice is upper-casing once |
| Text.TrimToUpper | backend/Services/CurrencyHelper.cs:14 | trimming and upper-casing commute |
| Text.StringLeTotal | backend/Controllers/GroupsController.cs:39 | the ordinal string order used by `OrderBy` is total |
| Text.StringLeTransitive | backend/Controllers/GroupsController.cs:39 | the ordinal string order is transitive |
| Sorting.SortBy | backend/Services/PortfolioAnalyticsService.cs:94 | a LINQ sort returns a sorted permutation of its input |
| Sorting.SumBySort | backend/Services/PortfolioAnalyticsService.cs:94 | sorting does not change a `Sum` |
| Sorting.DistinctBySort | backend/Services/PortfolioAnalyticsService.cs:94 | sorting keeps distinct keys distinct |
| Grouping.BucketSumsTotal | backend/Services/PortfolioAnalyticsService.cs:85-95 | the `GroupBy` bucket sums over the distinct keys add up to the sum over all elements |
| Grouping.DistinctKeys | backend/Services/PortfolioAnalyticsService.cs:86 | the `GroupBy` keys: each element's key exactly once |
| Grouping.BucketsCoverKeys | backend/Services/PortfolioAnalyticsService.cs:85-94 | one bucket per `GroupBy` key, reordered in any way, covers exactly the keys of the elements, in both directions |
| CurrencyHelper.NormalizeCurrencySpec | backend/Services/CurrencyHelper.cs:12-15 | the normalised code is the trimmed input, upper-cased character by character |
| CurrencyHelper.NormalizeCurrencyIdempotent | backend/Services/CurrencyHelper.cs:12-15 | normalising twice is normalising once |
| CurrencyHelper.IsAllowedSpec | backend/Services/CurrencyHelper.cs:5-10 | a code is allowed exactly when its upper-case form is one of EUR, USD, RON, so any casing is accepted |
| CurrencyHelper.NormalizedMembership | backend/Services/CurrencyHelper.cs:5-15 | for a normalised code, case-insensitive membership agrees with plain membership in {EUR, USD, RON} |
| EcbFxRates.EurRateDefinedForAllowed | backend/Services/EcbFxRateService.cs:59-73 | a code has a EUR rate exactly when it is EUR, USD or RON |
| EcbFxRates.ToEurSpec | backend/Services/EcbFxRateService.cs:59-65 | the EUR leg divides by the code's rate, fails on a zero rate and throws for an unsupported code |
| EcbFxRates.FromEurSpec | backend/Services/EcbFxRateService.cs:67-73 | the second leg multiplies by the target's rate and throws for an unsupported code |
| EcbFxRates.ConvertCodes | backend/Services/EcbFxRateService.cs:54-75 | equal codes return the amount unrounded, whatever the code; otherwise the result is the pivot amount rounded to four places, or the error of the first failing leg |
| EcbFxRates.ConvertIdentity | backend/Services/EcbFxRateService.cs:50-57 | codes that normalise alike convert to the amount itself, even for an unsupported code |
| EcbFxRates.ConvertCodesNear | backend/Services/EcbFxRateService.cs:59-75 | between two allowed codes the result lies within 0.00005 of the exact pivot amount |
| EcbFxRates.ConvertIntoEur | backend/Services/EcbFxRateService.cs:59-75 | converting into EUR is rounding amount / rate |
| EcbFxRates.ConvertOutOfEur | backend/Services/EcbFxRateService.cs:59-75 | converting out of EUR is rounding amount * rate |
| EcbFxRates.ConvertAcross | backend/Services/EcbFxRateService.cs:59-75 | converting between USD and RON is rounding amount / rate(from) * rate(to) |
| EcbFxRates.PivotLegs | backend/Services/EcbFxRateService.cs:59-75 | any EUR amount within half a ten-thousandth of amount / rate(from), converted on into a non-EUR target, lies within 0.0001 + 0.00005 * abs(rate(to)) of the direct conversion |
| EcbFxRates.PivotConsistent | backend/Services/EcbFxRateService.cs:59-75 | converting into EUR and then out of it succeeds whenever the direct conversion can; it equals the direct conversion when either code is EUR, and otherwise lies within 0.0001 + 0.00005 * abs(rate(to)) of it |
| EcbFxRates.ConvertPivotConsistent | backend/Services/EcbFxRateService.cs:50-75 | the same pivot bound for Convert, whatever the spelling of the two codes |
| EcbFxRates.LastRateIsLastValid | backend/Services/EcbFxRateService.cs:95-115 | the rate kept for a currency comes from the last Cube carrying that currency (any casing) with a parsable rate; it is absent exactly when no such Cube exists |
| EcbFxRates.LastRateNone | backend/Services/EcbFxRateService.cs:95-115 | no rate is kept for a currency exactly when no Cube gives a usable one for it |
| EcbFxRates.LastRateIndex | backend/Services/EcbFxRateService.cs:95-115 | the kept rate is that of a Cube after which no Cube gives a usable rate for the currency |
| EcbFxRates.ParseRates | backend/Services/EcbFxRateService.cs:78-128 | the scan fails exactly when USD or RON has no valid rate; otherwise it holds the last valid rates, and its date is the day of the last parsable `time`, or now |
| EcbFxRates.FallbackAgreesWithPrimary | backend/Services/EcbFxRateService.cs:34-35 | while both slots hold the same snapshot, a live primary entry and the fallback give the same answer |
| EcbFxRates.RefreshedSlotsAgree | backend/Services/EcbFxRateService.cs:34-36 | a refresh writes agreeing slots, and the primary entry is live at once |
| EcbFxRates.FxRateCache.constructor | backend/Services/EcbFxRateService.cs:23-48 | the cache starts with both slots empty |
| EcbFxRates.FxRateCache.GetRates | backend/Services/EcbFxRateService.cs:23-48 | a live primary entry is returned without fetching; a successful fetch fills both slots (30 min, 2 days) with that snapshot and returns it; a failed fetch or parse returns the live last-known-good snapshot, or throws |
| MarketData.TryGetDecimal | backend/Services/MarketDataService.cs:92-103 | a value is produced exactly when the field's value is non-null and parses; TryGetNullableDecimal is the same test |
| MarketData.QuoteFromResponse | backend/Services/MarketDataService.cs:27-70 | null exactly when the query threw, the symbol is absent, the price field is absent, null or unparsable, or a field the DTO reads is absent (the indexer throws, ShortName counting only when LongName is null); otherwise the price is parsed, a null symbol falls back to the normalised symbol, the company name to LongName, then ShortName, then the symbol, and the currency to USD |
| MarketData.NullFieldsFallBack | backend/Services/MarketDataService.cs:44-60 | a field present with a null value falls back, while the same field absent gives no quote |
| MarketData.CachedQuote | backend/Services/MarketDataService.cs:22-25 | a cached quote is returned exactly while its entry is present and unexpired |
| MarketData.QuoteService.constructor | backend/Services/MarketDataService.cs:18-71 | the quote cache starts empty |
| MarketData.QuoteService.GetQuote | backend/Services/MarketDataService.cs:18-71 | a cache hit under `quote:` + the trimmed, upper-cased symbol is returned with the cache unchanged; on a miss the upstream answer for the normalised symbol decides, and only a quote is cached, for 45 seconds |
| MarketData.NormalizeSymbolIdempotent | backend/Services/MarketDataService.cs:20 | normalising a symbol twice is normalising it once, so the cache key is stable |
| MarketData.CacheKeyInjective | backend/Services/MarketDataService.cs:21 | distinct symbols get distinct cache keys |
| MarketData.Bars | backend/Services/MarketDataService.cs:77-87 | one bar per upstream candle, fields copied |
| MarketData.GetHistorical | backend/Services/MarketDataService.cs:73-90 | the bars of the normalised symbol's candles, one per candle, in ascending date order |
| Store.IdsBelowAppend | backend/Controllers/HoldingsController.cs:110-111 | inserting a row with the next identity value keeps the ids unique |
| Store.IdsBelowRemove | backend/Controllers/HoldingsController.cs:183-184 | removing a row keeps the ids unique, and the removed id no longer occurs |
| Store.FindPortfolio | backend/Services/PortfolioAnalyticsService.cs:31-40 | a portfolio is found exactly when one matches both the id and the owner |
| Store.FindUser | backend/Services/PortfolioAnalyticsService.cs:42 | a user is found exactly when one has that id |
| Store.GroupNameOf | backend/Controllers/HoldingsController.cs:205 | the name of the holding's group, or "Uncategorized" when no group row has its GroupId |
| Store.PortfolioHoldings | backend/Controllers/HoldingsController.cs:41 | exactly the holdings of that portfolio |
| PortfolioAnalytics.PercentOf | backend/Services/PortfolioAnalyticsService.cs:76 | 0 when the whole is 0, so no division by zero |
| PortfolioAnalytics.PercentOfNear | backend/Services/PortfolioAnalyticsService.cs:76 | for a nonzero whole the percent is within half a hundredth of part / whole * 100 |
| PortfolioAnalytics.PercentRounded | backend/Services/PortfolioAnalyticsService.cs:83 | a percent is a whole number of hundredths, and for a nonzero whole it is within half a hundredth of part / whole * 100 |
| PortfolioAnalytics.ValuePosition | backend/Services/PortfolioAnalyticsService.cs:58-76 | a position copies the holding and its price; its market value and cost basis are the conversions into the base currency, its P/L is their difference, and the P/L percent is zero-guarded; it fails exactly when a conversion fails |
| PortfolioAnalytics.Quoted | backend/Services/PortfolioAnalyticsService.cs:51-56 | every holding kept has a quote |
| PortfolioAnalytics.QuotedIsFilter | backend/Services/PortfolioAnalyticsService.cs:46-56 | a holding is kept exactly when it has a quote, and the kept holdings plus the missing count make up all holdings |
| PortfolioAnalytics.QuotedAppend | backend/Services/PortfolioAnalyticsService.cs:46-56 | the filter of a concatenation is the concatenation of the filters, so the kept holdings stay in holding order |
| PortfolioAnalytics.ValuateSpec | backend/Services/PortfolioAnalyticsService.cs:46-78 | each holding yields one position or one missing symbol, so positions + missing = holdings; the positions are those of the quoted holdings, in order; valuation fails exactly when valuing a quoted holding fails |
| PortfolioAnalytics.ValuateHoldings | backend/Services/PortfolioAnalyticsService.cs:46-78 | the foreach loop computes exactly the valuation the specification function defines |
| PortfolioAnalytics.ValuateStep | backend/Services/PortfolioAnalyticsService.cs:49-77 | one loop step extends the positions or the missing count by one holding |
| PortfolioAnalytics.ValuateFailurePropagates | backend/Services/PortfolioAnalyticsService.cs:60-61 | once a conversion has thrown, the rest of the holdings do not change the outcome |
| PortfolioAnalytics.GroupIdForNameFound | backend/Services/PortfolioAnalyticsService.cs:89 | a non-zero group id is the GroupId of a holding of the portfolio whose group carries the name; with no such holding the id is 0 |
| PortfolioAnalytics.GroupBuckets | backend/Services/PortfolioAnalyticsService.cs:85-93 | one allocation per name, carrying the bucket's sum and zero-guarded percent; the allocations add up to the bucket sums |
| PortfolioAnalytics.CurrencyBuckets | backend/Services/PortfolioAnalyticsService.cs:97-104 | one exposure per currency, carrying the bucket's sum and zero-guarded percent; the exposures add up to the bucket sums |
| PortfolioAnalytics.GroupAllocations | backend/Services/PortfolioAnalyticsService.cs:85-95 | the group buckets in non-increasing order of market value, as a permutation |
| PortfolioAnalytics.CurrencyExposures | backend/Services/PortfolioAnalyticsService.cs:97-106 | the currency buckets in non-increasing order of market value, as a permutation |
| PortfolioAnalytics.GroupAllocationsTotal | backend/Services/PortfolioAnalyticsService.cs:85-95 | the allocations' market values add up to the unrounded total, with one allocation per group name |
| PortfolioAnalytics.GroupAllocationsCover | backend/Services/PortfolioAnalyticsService.cs:85-91 | for any total, every allocation's group name is some position's group name and every position's group name has an allocation |
| PortfolioAnalytics.GroupAllocationsZeroTotal | backend/Services/PortfolioAnalyticsService.cs:92 | with a zero total every allocation percent is 0 |
| PortfolioAnalytics.GroupPercentsNear | backend/Services/PortfolioAnalyticsService.cs:92 | with a nonzero total each allocation percent is within half a hundredth of its market value's exact share of the total |
| PortfolioAnalytics.GroupPercentsSum | backend/Services/PortfolioAnalyticsService.cs:85-95 | with a nonzero total the allocation percents add up to 100, within half a hundredth per group |
| PortfolioAnalytics.CurrencyExposuresTotal | backend/Services/PortfolioAnalyticsService.cs:97-106 | the exposures add up to the unrounded total, with one exposure per currency |
| PortfolioAnalytics.CurrencyExposuresCover | backend/Services/PortfolioAnalyticsService.cs:97-101 | for any total, every exposure's currency is some position's holding currency and every position's holding currency has an exposure |
| PortfolioAnalytics.CurrencyExposuresZeroTotal | backend/Services/PortfolioAnalyticsService.cs:103 | with a zero total every exposure percent is 0 |
| PortfolioAnalytics.ExposurePercentsNear | backend/Services/PortfolioAnalyticsService.cs:103 | with a nonzero total each exposure percent is within half a hundredth of its market value's exact share of the total |
| PortfolioAnalytics.ExposurePercentsSum | backend/Services/PortfolioAnalyticsService.cs:97-106 | with a nonzero total the exposure percents add up to 100, within half a hundredth per currency |
| PortfolioAnalytics.Report | backend/Services/PortfolioAnalyticsService.cs:80-121 | the totals are the sums over the positions rounded to cents, half to even; P/L is market value less cost; the total percent is P/L as a percent of cost, zero-guarded; allocations and exposures are taken against the unrounded total; the report is partial exactly when a symbol is missing |
| PortfolioAnalytics.ReportRounded | backend/Services/PortfolioAnalyticsService.cs:80-115 | every total is a whole number of cents within half a cent of its exact sum; the total percent has two decimals, is 0 for a zero cost, and otherwise lies within half a hundredth of P/L / cost * 100 |
| PortfolioAnalytics.AnalyticsSpec | backend/Services/PortfolioAnalyticsService.cs:29-122 | null exactly when no portfolio matches both the id and the caller; a rate failure propagates; a report carries the caller's base currency (EUR when the user is absent), is partial exactly when a symbol is missing, and has positions + missing = the portfolio's holdings |
| PortfolioAnalytics.GetPortfolioAnalytics | backend/Services/PortfolioAnalyticsService.cs:29-122 | the method reads the tables and returns the analytics the specification defines |
| PortfolioSnapshots.AddSnapshot | backend/Services/PortfolioAnalyticsService.cs:150-151 | the row is appended under the next snapshot id, the id counter advances, snapshot ids stay unique and below it, and no other table changes |
| PortfolioSnapshots.CreateSnapshot | backend/Services/PortfolioAnalyticsService.cs:124-154 | nothing is stored when the analytics are null or a rate call fails; otherwise exactly one row is appended with the next id, copying the analytics' totals, flags and base currency and the second rate call's timestamp and rates, and its DTO is returned |
| PortfolioSnapshots.Window | backend/Services/PortfolioAnalyticsService.cs:166-177 | exactly the caller's rows of the portfolio with from <= captured <= to, for the bounds given |
| PortfolioSnapshots.MapSnapshots | backend/Services/PortfolioAnalyticsService.cs:183 | one DTO per row, fields copied |
| PortfolioSnapshots.ToPoints | backend/Services/PortfolioAnalyticsService.cs:204-212 | one time-series point per row, fields copied |
| PortfolioSnapshots.GetSnapshots | backend/Services/PortfolioAnalyticsService.cs:156-184 | empty when the caller does not own the portfolio; otherwise the windowed rows, newest first, as a permutation |
| PortfolioSnapshots.GetTimeSeries | backend/Services/PortfolioAnalyticsService.cs:186-213 | the windowed rows, oldest first, as a permutation, with no ownership check beyond the user filter |
| PortfolioSnapshots.GetSnapshotsMembers | backend/Services/PortfolioAnalyticsService.cs:166-183 | a DTO is listed exactly when it maps a row in the window |
| PortfolioSnapshots.GetTimeSeriesMembers | backend/Services/PortfolioAnalyticsService.cs:188-212 | a point is listed exactly when it comes from a row in the window |
| PortfolioSnapshots.SnapshotsMatchTimeSeries | backend/Services/PortfolioAnalyticsService.cs:156-213 | for an owned portfolio, the listing and the time series each hold one entry per row in the window |
| Groups.FindDefault | backend/Services/HoldingGroupService.cs:20-21 | finds the first group of the user named exactly "Uncategorized", if any |
| Groups.WithDefaultGroup | backend/Services/HoldingGroupService.cs:18-40 | afterwards the user has a default group, and existing rows are kept |
| Groups.CountDefaultZero | backend/Services/HoldingGroupService.cs:20-26 | the user has no default group exactly when the lookup finds none |
| Groups.CountDefaultNone | backend/Services/HoldingGroupService.cs:20-26 | the user has no default group exactly when no row is the user's "Uncategorized" group |
| Groups.WithDefaultGroupCount | backend/Services/HoldingGroupService.cs:18-40 | with no default group, exactly one is inserted; with one, nothing changes |
| Groups.WithDefaultGroupIdempotent | backend/Services/HoldingGroupService.cs:18-40 | a second call changes nothing |
| Groups.EnsureUncategorizedGroup | backend/Services/HoldingGroupService.cs:18-40 | returns the user's existing default group untouched, or inserts one with the next id, the user, "Uncategorized" and "Default group"; the result is always the user's "Uncategorized" group |
| Groups.OwnedGroups | backend/Controllers/GroupsController.cs:38 | exactly the caller's groups |
| Groups.NameLeIsTotalPreorder | backend/Controllers/GroupsController.cs:39 | ordering by name is a total preorder |
| Groups.GetGroups | backend/Controllers/GroupsController.cs:25-50 | a blank caller is unauthorized and nothing changes; otherwise the default group is ensured first, advancing the group counter exactly when it had to be inserted, no other table or counter changes, and the caller's groups are returned sorted by name, including "Uncategorized" |
| Groups.CreateGroup | backend/Controllers/GroupsController.cs:52-90 | a trimmed name that matches one of the caller's groups ignoring case is a conflict and changes nothing; otherwise one group with trimmed name and description is appended; case-insensitively distinct names stay distinct |
| Groups.FindOwnedGroup | backend/Controllers/GroupsController.cs:101 | finds the group exactly when it has that id and belongs to the caller |
| Groups.UpdateGroup | backend/Controllers/GroupsController.cs:92-117 | a group the caller does not own is not found and nothing changes; a group named "Uncategorized" is locked; a trimmed name equal, ignoring case, to another of the caller's groups makes the save fail (an internal server error) and nothing changes; otherwise only that row gets the trimmed name and description and the new time; case-insensitively distinct names stay distinct |
| Groups.RenameKeepsNamesDistinct | backend/Migrations/20260224143341_AddGroupsCurrenciesAndSnapshots.cs:84-88 | renaming a row to a name no other group of its owner has, ignoring case, keeps the names unique per user |
| Groups.Reassigned | backend/Controllers/GroupsController.cs:140-144 | holdings of the deleted group move to the default group and no other holding changes |
| Groups.MoveHoldings | backend/Controllers/GroupsController.cs:140-144 | the loop reassigns exactly the holdings of the group, in place |
| Groups.RemoveGroup | backend/Controllers/GroupsController.cs:146 | the row is removed, its id is gone, the other rows keep their order |
| Groups.DeleteGroup | backend/Controllers/GroupsController.cs:119-149 | a group the caller does not own is not found and nothing changes; the default group (ensured first) is locked; otherwise its holdings move to the default group and the group is removed; in both of the last two outcomes the group counter advances exactly when the default group had to be inserted |
| Holdings.MapHolding | backend/Controllers/HoldingsController.cs:193-207 | the DTO copies the holding, and its group name is that of the holding's group, or "Uncategorized" when the group is missing |
| Holdings.RequestCurrency | backend/Controllers/HoldingsController.cs:87-88 | the allow-list test on the normalised currency is plain membership in {EUR, USD, RON} |
| Holdings.FindHolding | backend/Controllers/HoldingsController.cs:62-65 | the first holding with that id in that portfolio, and none exactly when there is no such holding |
| Holdings.FindUnique | backend/Controllers/HoldingsController.cs:62-65 | with unique ids, the lookup by a row's id and portfolio finds that row |
| Holdings.MapHoldings | backend/Controllers/HoldingsController.cs:42 | one DTO per holding |
| Holdings.GetHoldings | backend/Controllers/HoldingsController.cs:24-46 | unauthorized exactly for a blank caller, not found exactly when the portfolio is not the caller's; otherwise exactly the portfolio's holdings, mapped |
| Holdings.GetHolding | backend/Controllers/HoldingsController.cs:48-71 | unauthorized exactly for a blank caller; found exactly when the caller owns the portfolio and the holding is in it, and then it is that holding mapped; every other outcome is not found |
| Holdings.AddHolding | backend/Controllers/HoldingsController.cs:110-111 | the row is appended under the next holding id, the id counter advances, holding ids stay unique and below it, and no other table changes |
| Holdings.CreateHolding | backend/Controllers/HoldingsController.cs:73-119 | checks run in order: caller, portfolio, normalised currency, caller's group, and a failure changes nothing; success appends one row with the next id, the trimmed upper-case symbol, the normalised currency and the purchase date or now, and returns what a read of it returns |
| Holdings.UpdateHolding | backend/Controllers/HoldingsController.cs:121-162 | the same checks, plus a not-found for a holding outside the portfolio; success rewrites only that row with the normalised fields, keeping the old purchase date when none is given |
| Holdings.RemoveHolding | backend/Controllers/HoldingsController.cs:183-184 | the row is removed, its id is gone, the other rows keep their order |
| Holdings.DeleteHolding | backend/Controllers/HoldingsController.cs:164-186 | the caller and portfolio checks, then a not-found for a missing holding; success removes exactly that row, after which a read of it is not found |
| AdminUsers.ToAdminUserDto | backend/Services/UserProfileMapper.cs:22-33 | the DTO copies the user; a null email or user name becomes "" |
| AdminUsers.ClampPage | backend/Controllers/AdminUsersController.cs:28 | the page is at least 1 and is kept when already valid |
| AdminUsers.ClampPageSize | backend/Controllers/AdminUsersController.cs:29 | the page size lies in 1..100 and is kept when already valid |
| AdminUsers.Wrap32 | backend/Controllers/AdminUsersController.cs:42 | unchecked 32-bit arithmetic: the result is an int32 congruent to x modulo 2^32, and x itself when x fits |
| AdminUsers.SkipAsWrittenOverflows | backend/Controllers/AdminUsersController.cs:42 | page 21474838 with page size 100 makes the unchecked skip negative (-2147483596) instead of 2147483700 |
| AdminUsers.SkipAsWrittenAgrees | backend/Controllers/AdminUsersController.cs:42 | when the product fits in an int, the skip as written is the intended one |
| AdminUsers.PageOf | backend/Controllers/AdminUsersController.cs:42-43 | at most pageSize items, the ones starting at (page - 1) * pageSize, and all of them up to the end |
| AdminUsers.PageSlice | backend/Controllers/AdminUsersController.cs:42-43 | page n is the slice of the list between item (n - 1) * pageSize and item n * pageSize, both cut at the end |
| AdminUsers.PagesPartition | backend/Controllers/AdminUsersController.cs:42-43 | pages 1..n laid end to end are exactly the first n * pageSize items, so pages neither overlap nor skip |
| AdminUsers.Where | backend/Controllers/AdminUsersController.cs:34-36 | exactly the users whose email or user name contains the search text |
| AdminUsers.FilterUsers | backend/Controllers/AdminUsersController.cs:32-37 | a blank search keeps every user; otherwise exactly the matching ones |
| AdminUsers.EmailLeIsTotalPreorder | backend/Controllers/AdminUsersController.cs:41 | ordering by email (null first) is a total preorder |
| AdminUsers.Ordered | backend/Controllers/AdminUsersController.cs:40-41 | the filtered users sorted by email, as a permutation |
| AdminUsers.ToDtos | backend/Controllers/AdminUsersController.cs:46-51 | one DTO per user, in order |
| AdminUsers.GetUsers | backend/Controllers/AdminUsersController.cs:25-60 | the clamped page and size are reported, the total is the filtered count before paging, and the items are that page of the email-ordered filtered users, at most pageSize |
| AdminUsers.FindUserIndex | backend/Controllers/AdminUsersController.cs:65 | the first user with that id, and none exactly when there is none |
| AdminUsers.FindUserIndexByIds | backend/Controllers/AdminUsersController.cs:65 | the lookup depends only on the ids, so edits that keep ids keep it |
| AdminUsers.GetUser | backend/Controllers/AdminUsersController.cs:62-73 | not found exactly when no user has the id; otherwise that user's DTO |
| AdminUsers.UpdateUser | backend/Controllers/AdminUsersController.cs:75-107 | a missing user is not found; an email that differs ignoring case and belongs to another user is a conflict; a failed update changes nothing; otherwise the email (when it changed), the display name and the upper-cased base currency are stored; unique ids and case-insensitively unique emails are preserved; the other tables and the identity counters are unchanged, so a valid store stays valid |
| AdminUsers.EditedKeepsEmailsDistinct | backend/Controllers/AdminUsersController.cs:84-97 | an edit that passed the conflict check keeps emails unique ignoring case |
| AdminUsers.UpdateUserStatus | backend/Controllers/AdminUsersController.cs:109-127 | a missing user is not found, a failed update changes nothing, otherwise only the active flag changes and the user's DTO is returned; the other tables and the identity counters are unchanged, so a valid store stays valid |
| AdminUsers.NormalizeRoles | backend/Controllers/AdminUsersController.cs:138-142 | the normalised list is no longer than the request |
| AdminUsers.NormalizeRolesSound | backend/Controllers/AdminUsersController.cs:138-142 | every normalised role is the trimmed form of a non-blank requested role |
| AdminUsers.NormalizeRolesComplete | backend/Controllers/AdminUsersController.cs:138-142 | every non-blank requested role is represented, ignoring case |
| AdminUsers.NormalizeRolesDistinct | backend/Controllers/AdminUsersController.cs:141 | the normalised roles are pairwise distinct ignoring case |
| AdminUsers.NormalizedRolesTrimmed | backend/Controllers/AdminUsersController.cs:139-140 | every normalised role is non-blank and already trimmed |
| AdminUsers.NormalizeRolesOfNormal | backend/Controllers/AdminUsersController.cs:138-142 | normalising a list that is already normal returns it unchanged |
| AdminUsers.FirstUnknownRole | backend/Controllers/AdminUsersController.cs:149 | none exactly when every role is User or Admin ignoring case; otherwise the first role that is neither |
| AdminUsers.CanonicalRole | backend/Security/AppRoles.cs:8 | a known role name maps to the defined role it equals ignoring case |
| AdminUsers.CanonicalRolesDistinct | backend/Security/AppRoles.cs:5-8 | case-insensitively distinct role names map to distinct defined roles |
| AdminUsers.UpdateUserRoles | backend/Controllers/AdminUsersController.cs:129-170 | a missing user is not found; an empty normalised list is rejected, then the first unknown role; a failed removal changes nothing, a failed add leaves the user with no roles; success grants exactly the requested roles, distinct and all defined; the other tables and the identity counters are unchanged, so a valid store stays valid |
| AdminUsers.GrantedCoversRequest | backend/Controllers/AdminUsersController.cs:162 | every non-blank requested role is granted, ignoring case |
| UiToast.WithoutId | frontend/src/app/ui-toast.service.ts:20 | the filter keeps exactly the messages with another id |
| UiToast.WithoutIdAbove | frontend/src/app/ui-toast.service.ts:20 | filtering a list with increasing ids above a bound leaves increasing ids above that bound |
| UiToast.WithoutIdKeepsOrder | frontend/src/app/ui-toast.service.ts:20 | filtering keeps the survivors in order, so increasing ids stay increasing |
| UiToast.WithoutAbsentId | frontend/src/app/ui-toast.service.ts:19-21 | removing an id no message carries changes nothing |
| UiToast.WithoutIdIdempotent | frontend/src/app/ui-toast.service.ts:19-21 | removing the same id twice is removing it once |
| UiToast.UiToastService.constructor | frontend/src/app/ui-toast.service.ts:11-12 | the list starts empty and the counter at 1 |
| UiToast.UiToastService.Show | frontend/src/app/ui-toast.service.ts:14-17 | exactly one message is appended at the end, with the text, the variant (info by default) and a fresh id; the counter advances, so ids stay increasing and distinct |
| UiToast.UiToastService.Remove | frontend/src/app/ui-toast.service.ts:19-21 | exactly the messages with that id leave; the others stay in order; an absent id leaves the list unchanged |

## Left out

- Async execution, `CancellationToken`, logging and HTTP status codes are not modelled. An action's outcome is a `Result` whose error names the response.
- The YahooFinanceApi query, the ECB HTTP request and the XML parse are parameters. The quote query is a function returning a response or a thrown error. The ECB feed is the list of `Cube` attribute records, or None when the request or the parse threw. `DateTime.TryParse` and `decimal.TryParse` are opaque parser parameters.
- `IMemoryCache` is two explicit option slots for the rates and a map with expiry times for quotes. Eviction under memory pressure is not modelled.
- `PortfolioSnapshots.CreateSnapshot`: the analytics' rate call and the snapshot's later rate call are independent inputs. The model does not tie the second one to the cache state the first one left.
- `DateTime.UtcNow` is a parameter. Instants are whole seconds, and time zones and ticks are not modelled.
- C# `decimal` is an exact real here. Its 28-digit precision, its own overflow and the `decimal(18,2)` column precision of stored snapshots are not modelled.
- Holdings.CreateHolding: the row and the re-read DTO (backend/Controllers/HoldingsController.cs:113-118) keep the request's quantity and price exactly. The database keeps `Quantity` at `decimal(18,4)` and `AveragePurchasePrice` at `decimal(18,2)` (backend/Data/ApplicationDbContext.cs:21-27), so a price of 10.005 would come back rounded. Column scales are not modelled.
- Holdings.UpdateHolding: likewise stores the request's quantity and price without the column scales.
- Casing is ASCII only. `ToUpperInvariant`, `ToLower` and `OrdinalIgnoreCase` on non-ASCII letters are not modelled. White space for `Trim` follows `Char.IsWhiteSpace`.
- Database collation is not modelled. Name and email ordering is ordinal, `Contains` is an ordinal substring test, and the SQL `ToLower` comparison is the ASCII one. Lookups by name (`Name == "Uncategorized"`) are exact.
- The unique index on a group's (UserId, Name) is taken to compare names ignoring ASCII case, as a case-insensitive collation does; trailing-space padding in SQL comparisons is not modelled.
- Groups.EnsureUncategorizedGroup: a user can create "uncategorized" in another casing before the default group exists, because the create action does not ensure it first. The model's exact lookup then misses that row and inserts "Uncategorized". A case-insensitive database would match that row in the lookup, or refuse the insert through the unique index. The model does not capture this.
- Sorts are stated as a sorted permutation, so rows that tie may come in any order. The SQL `ORDER BY`s (group names, user emails, snapshot times) leave ties unspecified. The in-memory LINQ sorts at backend/Services/PortfolioAnalyticsService.cs:94 and :105 and backend/Services/MarketDataService.cs:88 are stable, so the source keeps tying allocations, exposures and bars in their input order; the model does not keep that tie order.
- EF Core `Include` loads a portfolio's holdings in table order, which the model assumes.
- ASP.NET Identity internals are not modelled:
  - the results of `UpdateAsync`, `RemoveFromRolesAsync` and `AddToRolesAsync` are boolean parameters;
  - the order of the role names `GetRolesAsync` returns is not modelled;
  - `FindByEmailAsync` throwing on duplicate emails is ruled out by the unique-email invariant, which the application turns on in `backend/Program.cs:34`.
- `AdminUsers.UpdateUserRoles`: after a successful update the stored roles are the defined role names in the request's order. Identity's own ordering is not modelled. A failed add is modelled as leaving the user with no roles, because the removal has already been saved.
- The admin password-reset endpoints only forward to Identity's token functions and are not modelled.
- Request-validation attributes on the DTOs (required fields, lengths, ranges) run before the actions and are not modelled. Missing values are handled as the actions handle them.
- The front end's id counter is a JavaScript number. Its precision limit above 2^53 is not modelled.
- `AdminUsers.GetUsers` uses the intended skip, `(page - 1) * pageSize` without overflow. The int32 overflow of the source is modelled separately; see Findings.

## Findings

| source | as written | input that shows it | evidently intended | confidence | as-written member | corrected member |
|---|---|---|---|---|---|---|
| backend/Controllers/AdminUsersController.cs:42 | `Skip((page - 1) * pageSize)` multiplies in unchecked 32-bit `int`, after the clamp has left any large `page` as it is | page = 21474838, pageSize = 100: the product 2147483700 wraps to -2147483596, a negative OFFSET that SQL Server rejects | skip 2147483700 rows, which returns an empty page | not executed | AdminUsers.SkipAsWrittenOverflows | AdminUsers.PagesPartition |
