/**
 * PortfolioAnalyticsService: values a portfolio's holdings in the owner's base
 * currency, totals them, splits the market value by group and by currency,
 * and records and queries snapshots of the totals.
 *
 * The rate provider's answer (`GetRatesAsync`) is an input of type
 * Result<FxRateSnapshot, FxError>; the quote provider is a function from a
 * holding's symbol to a quote or null.
 */
module PortfolioAnalytics {
  import opened Wrappers
  import opened Time
  import opened Sorting
  import opened Grouping
  import opened DecimalMath
  import opened EcbFxRates
  import opened MarketData
  import opened Store

  // ---------------------------------------------------------------- DTOs

  datatype PositionAnalyticsDto = PositionAnalyticsDto(
    holdingId: nat,
    symbol: string,
    holdingCurrency: string,
    groupName: string,
    quantity: real,
    averagePurchasePrice: real,
    currentPrice: real,
    marketValueBase: real,
    costBasisBase: real,
    unrealizedPnLBase: real,
    unrealizedPnLPercent: real)

  datatype GroupAllocationDto = GroupAllocationDto(groupId: nat, groupName: string, marketValueBase: real,
                                                   allocationPercent: real)

  datatype CurrencyExposureDto = CurrencyExposureDto(currency: string, marketValueBase: real, allocationPercent: real)

  datatype PortfolioAnalyticsDto = PortfolioAnalyticsDto(
    portfolioId: nat,
    baseCurrency: string,
    totalMarketValueBase: real,
    totalCostBasisBase: real,
    totalUnrealizedPnLBase: real,
    totalUnrealizedPnLPercent: real,
    isPartial: bool,
    missingSymbolsCount: nat,
    positions: seq<PositionAnalyticsDto>,
    groupAllocations: seq<GroupAllocationDto>,
    currencyExposures: seq<CurrencyExposureDto>)

  // ---------------------------------------------------------------- Positions

  /**
   * `whole == 0 ? 0 : decimal.Round(part / whole * 100m, 2)`: the guarded
   * percentage used for P/L and for allocations. It never divides by zero.
   */
  function PercentOf(part: real, whole: real): (r: real)
    ensures whole == 0.0 ==> r == 0.0
  {
    if whole == 0.0 then 0.0 else Round2(part / whole * 100.0)
  }

  /** A percent is a whole number of hundredths, and within half a hundredth of the exact ratio for a nonzero whole. */
  lemma PercentRounded(part: real, whole: real)
    ensures HasTwoDecimals(PercentOf(part, whole))
    ensures whole != 0.0 ==> -0.005 <= PercentOf(part, whole) - part / whole * 100.0 <= 0.005
  {
    if whole == 0.0 {
      assert HasTwoDecimals(0.0);
    } else {
      Round2Digits(part / whole * 100.0);
    }
  }

  /** A percent of a nonzero whole is within half a hundredth of the exact ratio times 100. */
  lemma PercentOfNear(part: real, whole: real)
    requires whole != 0.0
    ensures -0.005 <= PercentOf(part, whole) - part / whole * 100.0 <= 0.005
  {
  }

  /** Scaling to a percent of a nonzero whole distributes over a sum. */
  lemma PercentOfSum(a: real, b: real, whole: real)
    requires whole != 0.0
    ensures (a + b) / whole * 100.0 == a / whole * 100.0 + b / whole * 100.0
  {
    assert (a + b) / whole == a / whole + b / whole;
  }

  /**
   * Percents each within half a hundredth of their part's exact share add up
   * to within half a hundredth per part of the exact share of the parts' sum.
   */
  lemma {:induction false} PercentsSumNear<B>(parts: seq<B>, value: B -> real, percent: B -> real, whole: real)
    requires whole != 0.0
    requires forall i :: 0 <= i < |parts| ==> -0.005 <= percent(parts[i]) - value(parts[i]) / whole * 100.0 <= 0.005
    ensures -0.005 * (|parts| as real) <= SumBy(parts, percent) - SumBy(parts, value) / whole * 100.0
    ensures SumBy(parts, percent) - SumBy(parts, value) / whole * 100.0 <= 0.005 * (|parts| as real)
  {
    if parts != [] {
      var tail := parts[1..];
      assert forall i :: 0 <= i < |tail| ==> tail[i] == parts[i + 1];
      PercentsSumNear(tail, value, percent, whole);
      PercentOfSum(value(parts[0]), SumBy(tail, value), whole);
    }
  }

  /** Percents near their exact shares of a whole that the parts add up to add up to 100, within half a hundredth per part. */
  lemma PercentsSumToHundred<B>(parts: seq<B>, value: B -> real, percent: B -> real, whole: real)
    requires whole != 0.0 && SumBy(parts, value) == whole
    requires forall i :: 0 <= i < |parts| ==> -0.005 <= percent(parts[i]) - value(parts[i]) / whole * 100.0 <= 0.005
    ensures -0.005 * (|parts| as real) <= SumBy(parts, percent) - 100.0 <= 0.005 * (|parts| as real)
  {
    PercentsSumNear(parts, value, percent, whole);
    assert whole / whole * 100.0 == 100.0;
  }

  /**
   * The position for a holding that has a quote: market value and cost basis
   * converted from the holding's currency to the base currency, their
   * difference, and the guarded P/L percent.
   */
  function ValuePosition(holding: Holding, groups: seq<HoldingGroup>, price: real, baseCurrency: string,
                         rates: FxRateSnapshot): (r: Result<PositionAnalyticsDto, FxError>)
    ensures var marketValue := Convert(holding.quantity * price, holding.currency, baseCurrency, rates);
            var costBasis := Convert(holding.quantity * holding.averagePurchasePrice, holding.currency, baseCurrency, rates);
      && (r.Success? <==> marketValue.Success? && costBasis.Success?)
      && (r.Success? ==>
            && r.value.holdingId == holding.id
            && r.value.symbol == holding.symbol
            && r.value.holdingCurrency == holding.currency
            && r.value.groupName == GroupNameOf(holding, groups)
            && r.value.quantity == holding.quantity
            && r.value.averagePurchasePrice == holding.averagePurchasePrice
            && r.value.currentPrice == price
            && r.value.marketValueBase == marketValue.value
            && r.value.costBasisBase == costBasis.value
            && r.value.unrealizedPnLBase == r.value.marketValueBase - r.value.costBasisBase
            && r.value.unrealizedPnLPercent == PercentOf(r.value.unrealizedPnLBase, r.value.costBasisBase))
      && (r.Failure? ==> r.error == (if marketValue.Failure? then marketValue.error else costBasis.error))
  {
    match Convert(holding.quantity * price, holding.currency, baseCurrency, rates)
    case Failure(e) => Failure(e)
    case Success(marketValueBase) =>
      match Convert(holding.quantity * holding.averagePurchasePrice, holding.currency, baseCurrency, rates)
      case Failure(e) => Failure(e)
      case Success(costBasisBase) =>
        var pnlBase := marketValueBase - costBasisBase;
        Success(PositionAnalyticsDto(
          holdingId := holding.id,
          symbol := holding.symbol,
          holdingCurrency := holding.currency,
          groupName := GroupNameOf(holding, groups),
          quantity := holding.quantity,
          averagePurchasePrice := holding.averagePurchasePrice,
          currentPrice := price,
          marketValueBase := marketValueBase,
          costBasisBase := costBasisBase,
          unrealizedPnLBase := pnlBase,
          unrealizedPnLPercent := PercentOf(pnlBase, costBasisBase)))
  }

  /**
   * What the foreach over the holdings produces: the positions in holding
   * order and the number of holdings without a quote, or the first conversion
   * error. `position` values one quoted holding at its quoted price (in the
   * service: ValuePosition with the caller's groups, base currency and rates).
   */
  function Valuate(holdings: seq<Holding>, quote: string -> Option<QuoteDto>,
                   position: (Holding, real) -> Result<PositionAnalyticsDto, FxError>)
    : Result<(seq<PositionAnalyticsDto>, nat), FxError>
  {
    if holdings == [] then Success(([], 0))
    else
      match Valuate(holdings[..|holdings| - 1], quote, position)
      case Failure(e) => Failure(e)
      case Success((positions, missing)) =>
        var holding := holdings[|holdings| - 1];
        match quote(holding.symbol)
        case None => Success((positions, missing + 1))
        case Some(q) =>
          match position(holding, q.price)
          case Failure(e) => Failure(e)
          case Success(p) => Success((positions + [p], missing))
  }

  /** The holdings that have a quote, in order. */
  function Quoted(holdings: seq<Holding>, quote: string -> Option<QuoteDto>): (r: seq<Holding>)
    ensures forall j :: 0 <= j < |r| ==> quote(r[j].symbol).Some?
  {
    if holdings == [] then []
    else
      var init := Quoted(holdings[..|holdings| - 1], quote);
      if quote(holdings[|holdings| - 1].symbol).Some? then init + [holdings[|holdings| - 1]] else init
  }

  /** The number of holdings without a quote. */
  function CountMissing(holdings: seq<Holding>, quote: string -> Option<QuoteDto>): nat {
    if holdings == [] then 0
    else CountMissing(holdings[..|holdings| - 1], quote) + (if quote(holdings[|holdings| - 1].symbol).None? then 1 else 0)
  }

  /**
   * Quoted is the order-keeping filter on having a quote: it keeps exactly the
   * quoted holdings, every holding is either kept or counted missing, and the
   * filter of a concatenation is the concatenation of the filters.
   */
  lemma {:induction false} QuotedIsFilter(holdings: seq<Holding>, quote: string -> Option<QuoteDto>)
    ensures |Quoted(holdings, quote)| + CountMissing(holdings, quote) == |holdings|
    ensures forall h :: h in Quoted(holdings, quote) <==> h in holdings && quote(h.symbol).Some?
  {
    if holdings != [] {
      var init := holdings[..|holdings| - 1];
      QuotedIsFilter(init, quote);
      assert holdings == init + [holdings[|holdings| - 1]];
    }
  }

  /** Filtering a concatenation filters each part and keeps them in order. */
  lemma {:induction false} QuotedAppend(a: seq<Holding>, b: seq<Holding>, quote: string -> Option<QuoteDto>)
    ensures Quoted(a + b, quote) == Quoted(a, quote) + Quoted(b, quote)
  {
    if b == [] {
      assert a + b == a;
    } else {
      var init := b[..|b| - 1];
      QuotedAppend(a, init, quote);
      assert (a + b)[..|a + b| - 1] == a + init;
      assert (a + b)[|a + b| - 1] == b[|b| - 1];
    }
  }

  /** The valuation of a quoted holding at its quoted price. */
  function Valued(holding: Holding, quote: string -> Option<QuoteDto>,
                  position: (Holding, real) -> Result<PositionAnalyticsDto, FxError>): Result<PositionAnalyticsDto, FxError>
    requires quote(holding.symbol).Some?
  {
    position(holding, quote(holding.symbol).value.price)
  }

  /**
   * Every holding yields exactly one position or one missing symbol: the
   * positions are those of the quoted holdings, in order, and the missing count
   * is the number of unquoted holdings; so positions + missing = holdings.
   * Valuation fails exactly when valuing some quoted holding fails.
   */
  lemma {:induction false} ValuateSpec(holdings: seq<Holding>, quote: string -> Option<QuoteDto>,
                                       position: (Holding, real) -> Result<PositionAnalyticsDto, FxError>)
    ensures var r := Valuate(holdings, quote, position);
            var quoted := Quoted(holdings, quote);
      && (r.Failure? <==> exists j :: 0 <= j < |quoted| && Valued(quoted[j], quote, position).Failure?)
      && (r.Success? ==>
            && |r.value.0| + r.value.1 == |holdings|
            && r.value.1 == CountMissing(holdings, quote)
            && |r.value.0| == |quoted|
            && forall j :: 0 <= j < |quoted| ==> r.value.0[j] == Valued(quoted[j], quote, position).value)
  {
    if holdings != [] {
      var init := holdings[..|holdings| - 1];
      var holding := holdings[|holdings| - 1];
      ValuateSpec(init, quote, position);
      var quotedInit := Quoted(init, quote);
      var quoted := Quoted(holdings, quote);
      if quote(holding.symbol).Some? {
        assert quoted == quotedInit + [holding];
        assert forall j :: 0 <= j < |quotedInit| ==> quoted[j] == quotedInit[j];
        assert quoted[|quotedInit|] == holding;
      } else {
        assert quoted == quotedInit;
      }
    }
  }

  // ---------------------------------------------------------------- Totals and buckets

  function MarketValueOf(p: PositionAnalyticsDto): real { p.marketValueBase }
  function CostBasisOf(p: PositionAnalyticsDto): real { p.costBasisBase }
  function GroupNameKey(p: PositionAnalyticsDto): string { p.groupName }
  function CurrencyKey(p: PositionAnalyticsDto): string { p.holdingCurrency }

  /**
   * `portfolio.Holdings.FirstOrDefault(h => h.Group?.Name == name)?.GroupId ?? 0`:
   * the group id of the first holding (quoted or not) whose existing group
   * carries the name; a holding without a group row never matches.
   */
  function GroupIdForName(holdings: seq<Holding>, groups: seq<HoldingGroup>, name: string): nat {
    if holdings == [] then 0
    else if InGroupNamed(holdings[0], groups, name) then holdings[0].groupId
    else GroupIdForName(holdings[1..], groups, name)
  }

  /** `h.Group?.Name == name`: the holding's group row exists and carries the name. */
  predicate InGroupNamed(h: Holding, groups: seq<HoldingGroup>, name: string) {
    var group := FindGroup(groups, h.groupId);
    group.Some? && group.value.name == name
  }

  /**
   * A non-zero group id comes from a holding whose group carries the name, and
   * when no holding's group carries the name the id is 0.
   */
  lemma {:induction false} GroupIdForNameFound(holdings: seq<Holding>, groups: seq<HoldingGroup>, name: string)
    ensures GroupIdForName(holdings, groups, name) != 0 ==>
              exists i :: 0 <= i < |holdings| && InGroupNamed(holdings[i], groups, name) &&
                          holdings[i].groupId == GroupIdForName(holdings, groups, name)
    ensures (forall i :: 0 <= i < |holdings| ==> !InGroupNamed(holdings[i], groups, name)) ==>
              GroupIdForName(holdings, groups, name) == 0
  {
    if holdings != [] {
      var tail := holdings[1..];
      GroupIdForNameFound(tail, groups, name);
      assert forall i :: 0 <= i < |tail| ==> tail[i] == holdings[i + 1];
      if !InGroupNamed(holdings[0], groups, name) && GroupIdForName(tail, groups, name) != 0 {
        var i :| 0 <= i < |tail| && InGroupNamed(tail[i], groups, name) && tail[i].groupId == GroupIdForName(tail, groups, name);
        assert holdings[i + 1] == tail[i];
      }
    }
  }

  /** One GroupAllocationDto per name, in the order of the names. */
  function GroupBuckets(positions: seq<PositionAnalyticsDto>, names: seq<string>, holdings: seq<Holding>,
                        groups: seq<HoldingGroup>, totalMarket: real): (r: seq<GroupAllocationDto>)
    ensures |r| == |names|
    ensures forall i :: 0 <= i < |names| ==>
      && r[i].groupName == names[i]
      && r[i].groupId == GroupIdForName(holdings, groups, names[i])
      && r[i].marketValueBase == BucketSum(positions, GroupNameKey, names[i], MarketValueOf)
      && r[i].allocationPercent == PercentOf(r[i].marketValueBase, totalMarket)
    ensures SumBy(r, GroupValueOf) == SumBuckets(positions, GroupNameKey, names, MarketValueOf)
  {
    if names == [] then []
    else
      var init := GroupBuckets(positions, names[..|names| - 1], holdings, groups, totalMarket);
      var name := names[|names| - 1];
      var value := BucketSum(positions, GroupNameKey, name, MarketValueOf);
      var bucket := GroupAllocationDto(GroupIdForName(holdings, groups, name), name, value, PercentOf(value, totalMarket));
      SumByAppend(init, [bucket], GroupValueOf);
      init + [bucket]
  }

  /** One CurrencyExposureDto per code, in the order of the codes. */
  function CurrencyBuckets(positions: seq<PositionAnalyticsDto>, codes: seq<string>, totalMarket: real)
    : (r: seq<CurrencyExposureDto>)
    ensures |r| == |codes|
    ensures forall i :: 0 <= i < |codes| ==>
      && r[i].currency == codes[i]
      && r[i].marketValueBase == BucketSum(positions, CurrencyKey, codes[i], MarketValueOf)
      && r[i].allocationPercent == PercentOf(r[i].marketValueBase, totalMarket)
    ensures SumBy(r, ExposureValueOf) == SumBuckets(positions, CurrencyKey, codes, MarketValueOf)
  {
    if codes == [] then []
    else
      var init := CurrencyBuckets(positions, codes[..|codes| - 1], totalMarket);
      var code := codes[|codes| - 1];
      var value := BucketSum(positions, CurrencyKey, code, MarketValueOf);
      var bucket := CurrencyExposureDto(code, value, PercentOf(value, totalMarket));
      SumByAppend(init, [bucket], ExposureValueOf);
      init + [bucket]
  }

  function GroupValueOf(a: GroupAllocationDto): real { a.marketValueBase }
  function GroupPercentOf(a: GroupAllocationDto): real { a.allocationPercent }
  function ExposurePercentOf(e: CurrencyExposureDto): real { e.allocationPercent }
  function ExposureValueOf(e: CurrencyExposureDto): real { e.marketValueBase }
  function GroupNameOfAllocation(a: GroupAllocationDto): string { a.groupName }
  function CurrencyOfExposure(e: CurrencyExposureDto): string { e.currency }

  /** The i-th group bucket is named after the i-th distinct name. */
  lemma GroupBucketsNamed(positions: seq<PositionAnalyticsDto>, names: seq<string>, holdings: seq<Holding>,
                          groups: seq<HoldingGroup>, totalMarket: real)
    ensures KeysOf(GroupBuckets(positions, names, holdings, groups, totalMarket), GroupNameOfAllocation) == names
  {
    var buckets := GroupBuckets(positions, names, holdings, groups, totalMarket);
    assert forall i :: 0 <= i < |names| ==> KeysOf(buckets, GroupNameOfAllocation)[i] == names[i];
  }

  /** The i-th currency bucket carries the i-th distinct currency. */
  lemma CurrencyBucketsNamed(positions: seq<PositionAnalyticsDto>, codes: seq<string>, totalMarket: real)
    ensures KeysOf(CurrencyBuckets(positions, codes, totalMarket), CurrencyOfExposure) == codes
  {
    var buckets := CurrencyBuckets(positions, codes, totalMarket);
    assert forall i :: 0 <= i < |codes| ==> KeysOf(buckets, CurrencyOfExposure)[i] == codes[i];
  }

  /** OrderByDescending(MarketValueBase), as an ordering: larger values first. */
  function AllocationGe(a: GroupAllocationDto, b: GroupAllocationDto): bool { a.marketValueBase >= b.marketValueBase }
  function ExposureGe(a: CurrencyExposureDto, b: CurrencyExposureDto): bool { a.marketValueBase >= b.marketValueBase }

  /** The GroupBy(GroupName) ... OrderByDescending(MarketValueBase) pipeline. */
  function GroupAllocations(positions: seq<PositionAnalyticsDto>, holdings: seq<Holding>, groups: seq<HoldingGroup>,
                            totalMarket: real): (r: seq<GroupAllocationDto>)
    ensures forall i, j :: 0 <= i < j < |r| ==> r[i].marketValueBase >= r[j].marketValueBase
    ensures multiset(r) == multiset(GroupBuckets(positions, DistinctKeys(positions, GroupNameKey), holdings, groups, totalMarket))
  {
    assert TotalPreorder(AllocationGe);
    SortBy(GroupBuckets(positions, DistinctKeys(positions, GroupNameKey), holdings, groups, totalMarket), AllocationGe)
  }

  /** The GroupBy(HoldingCurrency) ... OrderByDescending(MarketValueBase) pipeline. */
  function CurrencyExposures(positions: seq<PositionAnalyticsDto>, totalMarket: real): (r: seq<CurrencyExposureDto>)
    ensures forall i, j :: 0 <= i < j < |r| ==> r[i].marketValueBase >= r[j].marketValueBase
    ensures multiset(r) == multiset(CurrencyBuckets(positions, DistinctKeys(positions, CurrencyKey), totalMarket))
  {
    assert TotalPreorder(ExposureGe);
    SortBy(CurrencyBuckets(positions, DistinctKeys(positions, CurrencyKey), totalMarket), ExposureGe)
  }

  /** `totalMarket - totalCost`: the unrealised profit or loss over all positions. */
  function TotalPnL(positions: seq<PositionAnalyticsDto>): real {
    SumBy(positions, MarketValueOf) - SumBy(positions, CostBasisOf)
  }

  /**
   * The report assembled from the positions and the missing count: the totals
   * are the position sums rounded to cents, P/L is market value less cost, and
   * the report is partial exactly when a symbol had no quote.
   */
  function Report(portfolioId: nat, baseCurrency: string, positions: seq<PositionAnalyticsDto>, missing: nat,
                  holdings: seq<Holding>, groups: seq<HoldingGroup>): (r: PortfolioAnalyticsDto)
    ensures r.portfolioId == portfolioId && r.baseCurrency == baseCurrency
    ensures r.positions == positions && r.missingSymbolsCount == missing
    ensures r.isPartial <==> missing > 0
    ensures r.totalMarketValueBase == Round2(SumBy(positions, MarketValueOf))
    ensures r.totalCostBasisBase == Round2(SumBy(positions, CostBasisOf))
    ensures r.totalUnrealizedPnLBase == Round2(TotalPnL(positions))
    ensures r.totalUnrealizedPnLPercent == PercentOf(TotalPnL(positions), SumBy(positions, CostBasisOf))
    ensures r.groupAllocations == GroupAllocations(positions, holdings, groups, SumBy(positions, MarketValueOf))
    ensures r.currencyExposures == CurrencyExposures(positions, SumBy(positions, MarketValueOf))
  {
    var totalMarket := SumBy(positions, MarketValueOf);
    var totalCost := SumBy(positions, CostBasisOf);
    PortfolioAnalyticsDto(
      portfolioId := portfolioId,
      baseCurrency := baseCurrency,
      totalMarketValueBase := Round2(totalMarket),
      totalCostBasisBase := Round2(totalCost),
      totalUnrealizedPnLBase := Round2(TotalPnL(positions)),
      totalUnrealizedPnLPercent := PercentOf(TotalPnL(positions), totalCost),
      isPartial := missing > 0,
      missingSymbolsCount := missing,
      positions := positions,
      groupAllocations := GroupAllocations(positions, holdings, groups, totalMarket),
      currencyExposures := CurrencyExposures(positions, totalMarket))
  }

  /**
   * The group allocations add up to the unrounded total market value, and no
   * group name occurs twice.
   */
  lemma GroupAllocationsTotal(positions: seq<PositionAnalyticsDto>, holdings: seq<Holding>, groups: seq<HoldingGroup>)
    ensures var totalMarket := SumBy(positions, MarketValueOf);
            var r := GroupAllocations(positions, holdings, groups, totalMarket);
      SumBy(r, GroupValueOf) == totalMarket && DistinctBy(r, GroupNameOfAllocation)
  {
    var totalMarket := SumBy(positions, MarketValueOf);
    var buckets := GroupBuckets(positions, DistinctKeys(positions, GroupNameKey), holdings, groups, totalMarket);
    BucketSumsTotal(positions, GroupNameKey, MarketValueOf);
    SumBySort(buckets, AllocationGe, GroupValueOf);
    DistinctBySort(buckets, AllocationGe, GroupNameOfAllocation);
  }

  /**
   * There is a group allocation exactly for the group names of the positions
   * (the GroupBy key), whatever the total.
   */
  lemma GroupAllocationsCover(positions: seq<PositionAnalyticsDto>, holdings: seq<Holding>, groups: seq<HoldingGroup>,
                              totalMarket: real, r: seq<GroupAllocationDto>)
    requires r == GroupAllocations(positions, holdings, groups, totalMarket)
    ensures forall i :: 0 <= i < |r| ==>
              exists j :: 0 <= j < |positions| && GroupNameKey(positions[j]) == GroupNameOfAllocation(r[i])
    ensures forall j :: 0 <= j < |positions| ==>
              exists i :: 0 <= i < |r| && GroupNameOfAllocation(r[i]) == GroupNameKey(positions[j])
  {
    var names := DistinctKeys(positions, GroupNameKey);
    var buckets := GroupBuckets(positions, names, holdings, groups, totalMarket);
    GroupBucketsNamed(positions, names, holdings, groups, totalMarket);
    BucketsCoverKeys(positions, GroupNameKey, names, buckets, r, GroupNameOfAllocation);
  }

  /**
   * Every total of the report is a whole number of cents within half a cent
   * of the exact sum; the total percent is a whole number of hundredths, 0 for
   * a zero cost and otherwise within half a hundredth of P/L over cost times 100.
   */
  lemma ReportRounded(portfolioId: nat, baseCurrency: string, positions: seq<PositionAnalyticsDto>, missing: nat,
                      holdings: seq<Holding>, groups: seq<HoldingGroup>, r: PortfolioAnalyticsDto)
    requires r == Report(portfolioId, baseCurrency, positions, missing, holdings, groups)
    ensures HasTwoDecimals(r.totalMarketValueBase) && -0.005 <= r.totalMarketValueBase - SumBy(positions, MarketValueOf) <= 0.005
    ensures HasTwoDecimals(r.totalCostBasisBase) && -0.005 <= r.totalCostBasisBase - SumBy(positions, CostBasisOf) <= 0.005
    ensures HasTwoDecimals(r.totalUnrealizedPnLBase) && -0.005 <= r.totalUnrealizedPnLBase - TotalPnL(positions) <= 0.005
    ensures HasTwoDecimals(r.totalUnrealizedPnLPercent)
    ensures SumBy(positions, CostBasisOf) == 0.0 ==> r.totalUnrealizedPnLPercent == 0.0
    ensures SumBy(positions, CostBasisOf) != 0.0 ==>
      -0.005 <= r.totalUnrealizedPnLPercent - TotalPnL(positions) / SumBy(positions, CostBasisOf) * 100.0 <= 0.005
  {
    Round2Digits(SumBy(positions, MarketValueOf));
    Round2Digits(SumBy(positions, CostBasisOf));
    Round2Digits(TotalPnL(positions));
    PercentRounded(TotalPnL(positions), SumBy(positions, CostBasisOf));
  }

  /** Each group allocation percent is within half a hundredth of its exact share of a nonzero total. */
  lemma GroupPercentsNear(positions: seq<PositionAnalyticsDto>, holdings: seq<Holding>, groups: seq<HoldingGroup>,
                          totalMarket: real, r: seq<GroupAllocationDto>)
    requires totalMarket != 0.0 && r == GroupAllocations(positions, holdings, groups, totalMarket)
    ensures forall i :: 0 <= i < |r| ==> -0.005 <= GroupPercentOf(r[i]) - GroupValueOf(r[i]) / totalMarket * 100.0 <= 0.005
  {
    var buckets := GroupBuckets(positions, DistinctKeys(positions, GroupNameKey), holdings, groups, totalMarket);
    forall i | 0 <= i < |r| ensures -0.005 <= GroupPercentOf(r[i]) - GroupValueOf(r[i]) / totalMarket * 100.0 <= 0.005 {
      assert r[i] in multiset(buckets);
      var k :| 0 <= k < |buckets| && buckets[k] == r[i];
      PercentOfNear(r[i].marketValueBase, totalMarket);
    }
  }

  /**
   * With a nonzero total market value the group allocation percents add up to
   * 100, give or take half a hundredth per group for the rounding.
   */
  lemma GroupPercentsSum(positions: seq<PositionAnalyticsDto>, holdings: seq<Holding>, groups: seq<HoldingGroup>,
                         r: seq<GroupAllocationDto>)
    requires SumBy(positions, MarketValueOf) != 0.0
    requires r == GroupAllocations(positions, holdings, groups, SumBy(positions, MarketValueOf))
    ensures -0.005 * (|r| as real) <= SumBy(r, GroupPercentOf) - 100.0 <= 0.005 * (|r| as real)
  {
    GroupAllocationsTotal(positions, holdings, groups);
    GroupPercentsNear(positions, holdings, groups, SumBy(positions, MarketValueOf), r);
    PercentsSumToHundred(r, GroupValueOf, GroupPercentOf, SumBy(positions, MarketValueOf));
  }

  /** With a total market value of 0 every group allocation percent is 0 (no division by zero). */
  lemma GroupAllocationsZeroTotal(positions: seq<PositionAnalyticsDto>, holdings: seq<Holding>, groups: seq<HoldingGroup>)
    requires SumBy(positions, MarketValueOf) == 0.0
    ensures var r := GroupAllocations(positions, holdings, groups, 0.0);
      forall i :: 0 <= i < |r| ==> r[i].allocationPercent == 0.0
  {
    var names := DistinctKeys(positions, GroupNameKey);
    var buckets := GroupBuckets(positions, names, holdings, groups, 0.0);
    var r := GroupAllocations(positions, holdings, groups, 0.0);
    forall i | 0 <= i < |r| ensures r[i].allocationPercent == 0.0 {
      assert r[i] in multiset(buckets);
      var k :| 0 <= k < |buckets| && buckets[k] == r[i];
    }
  }

  /**
   * The currency exposures add up to the unrounded total market value, and no
   * currency occurs twice.
   */
  lemma CurrencyExposuresTotal(positions: seq<PositionAnalyticsDto>)
    ensures var totalMarket := SumBy(positions, MarketValueOf);
            var r := CurrencyExposures(positions, totalMarket);
      SumBy(r, ExposureValueOf) == totalMarket && DistinctBy(r, CurrencyOfExposure)
  {
    var totalMarket := SumBy(positions, MarketValueOf);
    var buckets := CurrencyBuckets(positions, DistinctKeys(positions, CurrencyKey), totalMarket);
    BucketSumsTotal(positions, CurrencyKey, MarketValueOf);
    SumBySort(buckets, ExposureGe, ExposureValueOf);
    DistinctBySort(buckets, ExposureGe, CurrencyOfExposure);
  }

  /**
   * There is a currency exposure exactly for the holding currencies of the
   * positions (the GroupBy key), whatever the total.
   */
  lemma CurrencyExposuresCover(positions: seq<PositionAnalyticsDto>, totalMarket: real, r: seq<CurrencyExposureDto>)
    requires r == CurrencyExposures(positions, totalMarket)
    ensures forall i :: 0 <= i < |r| ==>
              exists j :: 0 <= j < |positions| && CurrencyKey(positions[j]) == CurrencyOfExposure(r[i])
    ensures forall j :: 0 <= j < |positions| ==>
              exists i :: 0 <= i < |r| && CurrencyOfExposure(r[i]) == CurrencyKey(positions[j])
  {
    var codes := DistinctKeys(positions, CurrencyKey);
    var buckets := CurrencyBuckets(positions, codes, totalMarket);
    CurrencyBucketsNamed(positions, codes, totalMarket);
    BucketsCoverKeys(positions, CurrencyKey, codes, buckets, r, CurrencyOfExposure);
  }

  /** Each currency exposure percent is within half a hundredth of its exact share of a nonzero total. */
  lemma ExposurePercentsNear(positions: seq<PositionAnalyticsDto>, totalMarket: real, r: seq<CurrencyExposureDto>)
    requires totalMarket != 0.0 && r == CurrencyExposures(positions, totalMarket)
    ensures forall i :: 0 <= i < |r| ==> -0.005 <= ExposurePercentOf(r[i]) - ExposureValueOf(r[i]) / totalMarket * 100.0 <= 0.005
  {
    var buckets := CurrencyBuckets(positions, DistinctKeys(positions, CurrencyKey), totalMarket);
    forall i | 0 <= i < |r| ensures -0.005 <= ExposurePercentOf(r[i]) - ExposureValueOf(r[i]) / totalMarket * 100.0 <= 0.005 {
      assert r[i] in multiset(buckets);
      var k :| 0 <= k < |buckets| && buckets[k] == r[i];
      PercentOfNear(r[i].marketValueBase, totalMarket);
    }
  }

  /**
   * With a nonzero total market value the currency exposure percents add up
   * to 100, give or take half a hundredth per currency for the rounding.
   */
  lemma ExposurePercentsSum(positions: seq<PositionAnalyticsDto>, r: seq<CurrencyExposureDto>)
    requires SumBy(positions, MarketValueOf) != 0.0
    requires r == CurrencyExposures(positions, SumBy(positions, MarketValueOf))
    ensures -0.005 * (|r| as real) <= SumBy(r, ExposurePercentOf) - 100.0 <= 0.005 * (|r| as real)
  {
    CurrencyExposuresTotal(positions);
    ExposurePercentsNear(positions, SumBy(positions, MarketValueOf), r);
    PercentsSumToHundred(r, ExposureValueOf, ExposurePercentOf, SumBy(positions, MarketValueOf));
  }

  /** With a total market value of 0 every currency exposure percent is 0 (no division by zero). */
  lemma CurrencyExposuresZeroTotal(positions: seq<PositionAnalyticsDto>)
    requires SumBy(positions, MarketValueOf) == 0.0
    ensures var r := CurrencyExposures(positions, 0.0);
      forall i :: 0 <= i < |r| ==> r[i].allocationPercent == 0.0
  {
    var codes := DistinctKeys(positions, CurrencyKey);
    var buckets := CurrencyBuckets(positions, codes, 0.0);
    var r := CurrencyExposures(positions, 0.0);
    forall i | 0 <= i < |r| ensures r[i].allocationPercent == 0.0 {
      assert r[i] in multiset(buckets);
      var k :| 0 <= k < |buckets| && buckets[k] == r[i];
    }
  }

  // ---------------------------------------------------------------- GetPortfolioAnalyticsAsync

  /** `user?.BaseCurrency ?? "EUR"`. */
  function BaseCurrencyOf(users: seq<ApplicationUser>, userId: string): string {
    match FindUser(users, userId)
    case Some(user) => user.baseCurrency
    case None => "EUR"
  }

  /**
   * GetPortfolioAnalyticsAsync as a function of the tables: null when the
   * caller owns no portfolio with that id; otherwise the report, or the
   * exception of the rate provider or of a conversion.
   */
  function Analytics(portfolios: seq<Portfolio>, holdings: seq<Holding>, groups: seq<HoldingGroup>,
                     users: seq<ApplicationUser>, userId: string, portfolioId: nat,
                     rates: Result<FxRateSnapshot, FxError>, quote: string -> Option<QuoteDto>)
    : Result<Option<PortfolioAnalyticsDto>, FxError>
  {
    match FindPortfolio(portfolios, portfolioId, userId)
    case None => Success(None)
    case Some(portfolio) =>
      var baseCurrency := BaseCurrencyOf(users, userId);
      match rates
      case Failure(e) => Failure(e)
      case Success(snapshot) =>
        var own := PortfolioHoldings(holdings, portfolio.id);
        match Valuate(own, quote, (h, price) => ValuePosition(h, groups, price, baseCurrency, snapshot))
        case Failure(e) => Failure(e)
        case Success((positions, missing)) =>
          Success(Some(Report(portfolio.id, baseCurrency, positions, missing, own, groups)))
  }

  /**
   * The analytics are null exactly when no portfolio matches both the id and
   * the caller; a report carries the caller's base currency (or EUR), has
   * positions + missing = holdings of the portfolio, and is partial exactly
   * when a symbol is missing.
   */
  lemma AnalyticsSpec(portfolios: seq<Portfolio>, holdings: seq<Holding>, groups: seq<HoldingGroup>,
                      users: seq<ApplicationUser>, userId: string, portfolioId: nat,
                      rates: Result<FxRateSnapshot, FxError>, quote: string -> Option<QuoteDto>)
    ensures var r := Analytics(portfolios, holdings, groups, users, userId, portfolioId, rates, quote);
      && (r == Success(None) <==> !PortfolioExists(portfolios, portfolioId, userId))
      && (PortfolioExists(portfolios, portfolioId, userId) && rates.Failure? ==> r == Failure(rates.error))
      && (r.Success? && r.value.Some? ==>
            var a := r.value.value;
            var own := PortfolioHoldings(holdings, portfolioId);
            && a.portfolioId == portfolioId
            && a.baseCurrency == BaseCurrencyOf(users, userId)
            && |a.positions| + a.missingSymbolsCount == |own|
            && a.missingSymbolsCount == CountMissing(own, quote)
            && a.isPartial == (a.missingSymbolsCount > 0))
  {
    var r := Analytics(portfolios, holdings, groups, users, userId, portfolioId, rates, quote);
    if PortfolioExists(portfolios, portfolioId, userId) && rates.Success? {
      var own := PortfolioHoldings(holdings, portfolioId);
      ValuateSpec(own, quote, (h, price) => ValuePosition(h, groups, price, BaseCurrencyOf(users, userId), rates.value));
    }
  }

  /** GetPortfolioAnalyticsAsync over the database: the loop of the source, proved against Analytics. */
  method GetPortfolioAnalytics(db: Database, userId: string, portfolioId: nat,
                               rates: Result<FxRateSnapshot, FxError>, quote: string -> Option<QuoteDto>)
    returns (r: Result<Option<PortfolioAnalyticsDto>, FxError>)
    ensures r == Analytics(db.portfolios, db.holdings, db.groups, db.users, userId, portfolioId, rates, quote)
  {
    var portfolio := FindPortfolio(db.portfolios, portfolioId, userId);
    if portfolio.None? {
      return Success(None);
    }
    var baseCurrency := BaseCurrencyOf(db.users, userId);
    if rates.Failure? {
      return Failure(rates.error);
    }
    var snapshot := rates.value;
    var groups := db.groups;
    var own := PortfolioHoldings(db.holdings, portfolio.value.id);
    var value := (h, price) => ValuePosition(h, groups, price, baseCurrency, snapshot);
    var valuation := ValuateHoldings(own, quote, value);
    if valuation.Failure? {
      return Failure(valuation.error);
    }
    var (positions, missing) := valuation.value;
    return Success(Some(Report(portfolio.value.id, baseCurrency, positions, missing, own, groups)));
  }

  /** The foreach over the portfolio's holdings: skip and count a missing quote, else value the holding. */
  method ValuateHoldings(holdings: seq<Holding>, quote: string -> Option<QuoteDto>,
                         position: (Holding, real) -> Result<PositionAnalyticsDto, FxError>)
    returns (r: Result<(seq<PositionAnalyticsDto>, nat), FxError>)
    ensures r == Valuate(holdings, quote, position)
  {
    var positions: seq<PositionAnalyticsDto> := [];
    var missing: nat := 0;
    for i := 0 to |holdings|
      invariant Valuate(holdings[..i], quote, position) == Success((positions, missing))
    {
      ValuateStep(holdings, i, quote, position);
      var q := quote(holdings[i].symbol);
      if q.None? {
        missing := missing + 1;
      } else {
        var p := position(holdings[i], q.value.price);
        if p.Failure? {
          ValuateFailurePropagates(holdings, i + 1, quote, position);
          return Failure(p.error);
        }
        positions := positions + [p.value];
      }
    }
    assert holdings[..|holdings|] == holdings;
    return Success((positions, missing));
  }

  /** One more holding: a missing quote counts, a valued one is appended, a failure ends the valuation. */
  lemma ValuateStep(holdings: seq<Holding>, i: nat, quote: string -> Option<QuoteDto>,
                    position: (Holding, real) -> Result<PositionAnalyticsDto, FxError>)
    requires i < |holdings| && Valuate(holdings[..i], quote, position).Success?
    ensures var (positions, missing) := Valuate(holdings[..i], quote, position).value;
            var q := quote(holdings[i].symbol);
      && (q.None? ==> Valuate(holdings[..i + 1], quote, position) == Success((positions, missing + 1)))
      && (q.Some? && position(holdings[i], q.value.price).Success? ==>
            Valuate(holdings[..i + 1], quote, position) ==
            Success((positions + [position(holdings[i], q.value.price).value], missing)))
      && (q.Some? && position(holdings[i], q.value.price).Failure? ==>
            Valuate(holdings[..i + 1], quote, position) == Failure(position(holdings[i], q.value.price).error))
  {
    assert holdings[..i + 1][..i] == holdings[..i];
  }

  /** Once a prefix fails, the whole valuation fails with the same error. */
  lemma {:induction false} ValuateFailurePropagates(holdings: seq<Holding>, n: nat, quote: string -> Option<QuoteDto>,
                                                    position: (Holding, real) -> Result<PositionAnalyticsDto, FxError>)
    requires n <= |holdings|
    requires Valuate(holdings[..n], quote, position).Failure?
    ensures Valuate(holdings, quote, position) == Valuate(holdings[..n], quote, position)
    decreases |holdings| - n
  {
    if n < |holdings| {
      assert holdings[..n + 1][..n] == holdings[..n];
      ValuateFailurePropagates(holdings, n + 1, quote, position);
    } else {
      assert holdings[..n] == holdings;
    }
  }
}
