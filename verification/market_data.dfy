/**
 * MarketDataService: the quote lookup behind a 45-second cache, the mapping of
 * the upstream field set onto a QuoteDto, and the ordering of historical bars.
 * The upstream quote service is an input: what one query for a symbol returned
 * (or that it threw), and the daily candles for a symbol and a date range.
 */
module MarketData {
  import opened Wrappers
  import opened Text
  import opened Time
  import opened Sorting

  /** The fields requested from the upstream quote service. */
  datatype Field =
    | Symbol | RegularMarketPrice | FiftyTwoWeekHigh | FiftyTwoWeekLow
    | LongName | ShortName | MarketCap | Currency

  /**
   * One security in the upstream answer: for each field the answer carries,
   * the text (`ToString()`) of its value, or None when that value is null.
   * The indexer `quote[field]` looks the field up in the security's
   * dictionary, so reading a field the answer left out throws.
   */
  type Security = map<Field, Option<string>>

  /** The outcome of one upstream query. */
  datatype QuoteResponse =
    | Threw                                        // any exception on the way
    | Returned(securities: map<string, Security>)  // keyed by symbol

  /** QuoteDto. */
  datatype QuoteDto = QuoteDto(
    symbol: string,
    price: real,
    high52Week: Option<real>,
    low52Week: Option<real>,
    companyName: string,
    marketCap: Option<real>,
    currency: string,
    retrievedAtUtc: Instant)

  /**
   * TryGetDecimal: a non-null value whose text decimal.TryParse accepts.
   * TryGetNullableDecimal is the same test yielding null instead of false,
   * so both are this one function.
   */
  function TryGetDecimal(raw: Option<string>, parseDecimal: string -> Option<real>): (r: Option<real>)
    ensures r.Some? <==> raw.Some? && parseDecimal(raw.value).Some?
    ensures r.Some? ==> r.value == parseDecimal(raw.value).value
  {
    if raw.None? then None else parseDecimal(raw.value)
  }

  /** `x ?? y` over nullable strings. */
  function Coalesce(x: Option<string>, fallback: string): string {
    if x.Some? then x.value else fallback
  }

  /** The symbol as the service queries and caches it. */
  function NormalizeSymbol(symbol: string): string {
    ToUpper(Trim(symbol))
  }

  /** The cache key of a normalised symbol. */
  function CacheKey(normalizedSymbol: string): string {
    "quote:" + normalizedSymbol
  }

  /** How long a fetched quote stays in the cache, in seconds. */
  const QuoteTtl: nat := 45

  /**
   * Every field the DTO initialiser reads after the price is present; ShortName
   * is read only when LongName is null.
   */
  predicate DtoFieldsPresent(security: Security) {
    && Symbol in security && FiftyTwoWeekHigh in security && FiftyTwoWeekLow in security
    && LongName in security && (security[LongName].None? ==> ShortName in security)
    && MarketCap in security && Currency in security
  }

  /**
   * The body of the try block of GetQuoteAsync: the quote for a normalised
   * symbol from one upstream answer, or null. A read of an absent field throws
   * and the catch turns that into null.
   */
  function QuoteFromResponse(normalizedSymbol: string, response: QuoteResponse,
                             parseDecimal: string -> Option<real>, now: Instant): (r: Option<QuoteDto>)
    // null exactly when the query threw, the symbol is absent, the price is absent,
    // null or unparsable, or a field the DTO reads is absent
    ensures r.Some? <==>
      && response.Returned?
      && normalizedSymbol in response.securities
      && RegularMarketPrice in response.securities[normalizedSymbol]
      && TryGetDecimal(response.securities[normalizedSymbol][RegularMarketPrice], parseDecimal).Some?
      && DtoFieldsPresent(response.securities[normalizedSymbol])
    ensures r.Some? ==>
      var security := response.securities[normalizedSymbol];
      && r.value.price == parseDecimal(security[RegularMarketPrice].value).value
      && r.value.symbol == (if security[Symbol].Some? then security[Symbol].value else normalizedSymbol)
      && r.value.companyName ==
           (if security[LongName].Some? then security[LongName].value
            else if security[ShortName].Some? then security[ShortName].value
            else normalizedSymbol)
      && r.value.currency == (if security[Currency].Some? then security[Currency].value else "USD")
      && r.value.high52Week == TryGetDecimal(security[FiftyTwoWeekHigh], parseDecimal)
      && r.value.low52Week == TryGetDecimal(security[FiftyTwoWeekLow], parseDecimal)
      && r.value.marketCap == TryGetDecimal(security[MarketCap], parseDecimal)
      && r.value.retrievedAtUtc == now
  {
    match response
    case Threw => None
    case Returned(securities) =>
      if normalizedSymbol !in securities then None
      else
        var security := securities[normalizedSymbol];
        if RegularMarketPrice !in security then None
        else
          var price := TryGetDecimal(security[RegularMarketPrice], parseDecimal);
          if price.None? || !DtoFieldsPresent(security) then None
          else
            Some(QuoteDto(
              symbol := Coalesce(security[Symbol], normalizedSymbol),
              price := price.value,
              high52Week := TryGetDecimal(security[FiftyTwoWeekHigh], parseDecimal),
              low52Week := TryGetDecimal(security[FiftyTwoWeekLow], parseDecimal),
              companyName := if security[LongName].Some? then security[LongName].value
                             else Coalesce(security[ShortName], normalizedSymbol),
              marketCap := TryGetDecimal(security[MarketCap], parseDecimal),
              currency := Coalesce(security[Currency], "USD"),
              retrievedAtUtc := now))
  }

  /**
   * A field present with a null value is not an absent one: with every field
   * present and null but a parsable price, the quote falls back to the symbol
   * and "USD" and carries no optional value; removing any one of the fields
   * the DTO reads instead yields no quote.
   */
  lemma NullFieldsFallBack(normalizedSymbol: string, priceText: string, parseDecimal: string -> Option<real>,
                           now: Instant, missing: Field)
    requires parseDecimal(priceText).Some?
    requires missing != RegularMarketPrice && missing != ShortName
    ensures var security: Security := map[Symbol := None, RegularMarketPrice := Some(priceText),
                               FiftyTwoWeekHigh := None, FiftyTwoWeekLow := None, LongName := None,
                               ShortName := None, MarketCap := None, Currency := None];
      var r := QuoteFromResponse(normalizedSymbol, Returned(map[normalizedSymbol := security]), parseDecimal, now);
      && r == Some(QuoteDto(normalizedSymbol, parseDecimal(priceText).value, None, None, normalizedSymbol, None, "USD", now))
      && QuoteFromResponse(normalizedSymbol, Returned(map[normalizedSymbol := security - {missing}]), parseDecimal, now).None?
      && QuoteFromResponse(normalizedSymbol, Returned(map[normalizedSymbol := security - {ShortName}]), parseDecimal, now).None?
  {
  }

  /** A cached quote with its absolute expiry. */
  datatype QuoteEntry = QuoteEntry(quote: QuoteDto, expiresAt: Instant)

  /** What the cache holds for a key at time `now`: an entry is live strictly before its expiry. */
  function CachedQuote(entries: map<string, QuoteEntry>, key: string, now: Instant): (r: Option<QuoteDto>)
    ensures r.Some? <==> key in entries && now < entries[key].expiresAt
    ensures r.Some? ==> r.value == entries[key].quote
  {
    if key in entries && now < entries[key].expiresAt then Some(entries[key].quote) else None
  }

  /** The quote service with its in-memory cache. */
  class QuoteService {
    var entries: map<string, QuoteEntry>

    constructor ()
      ensures entries == map[]
    {
      entries := map[];
    }

    /**
     * GetQuoteAsync at time `now`. `query` is what the upstream service answers
     * for a normalised symbol; it is consulted only on a cache miss.
     */
    method GetQuote(symbol: string, now: Instant, query: string -> QuoteResponse,
                    parseDecimal: string -> Option<real>)
      returns (r: Option<QuoteDto>)
      modifies this
      // A live cache entry under the normalised symbol is returned; nothing is stored.
      ensures var key := CacheKey(NormalizeSymbol(symbol));
        CachedQuote(old(entries), key, now).Some? ==>
          r == CachedQuote(old(entries), key, now) && entries == old(entries)
      // On a miss the upstream answer for the normalised symbol decides; a quote is cached for 45 seconds.
      ensures var normalized := NormalizeSymbol(symbol);
        var key := CacheKey(normalized);
        CachedQuote(old(entries), key, now).None? ==>
          && r == QuoteFromResponse(normalized, query(normalized), parseDecimal, now)
          && entries == (if r.Some? then old(entries)[key := QuoteEntry(r.value, now + QuoteTtl)] else old(entries))
    {
      var normalized := NormalizeSymbol(symbol);
      var key := CacheKey(normalized);
      var cached := CachedQuote(entries, key, now);
      if cached.Some? {
        return cached;
      }
      r := QuoteFromResponse(normalized, query(normalized), parseDecimal, now);
      if r.Some? {
        entries := entries[key := QuoteEntry(r.value, now + QuoteTtl)];
      }
    }
  }

  /** Two spellings of a symbol that normalise alike share one cache entry and one upstream query. */
  lemma NormalizeSymbolIdempotent(symbol: string)
    ensures NormalizeSymbol(NormalizeSymbol(symbol)) == NormalizeSymbol(symbol)
  {
    TrimToUpper(Trim(symbol));
    TrimIdempotent(symbol);
    ToUpperIdempotent(Trim(symbol));
  }

  /** Distinct normalised symbols never share a cache entry. */
  lemma CacheKeyInjective(a: string, b: string)
    ensures CacheKey(a) == CacheKey(b) ==> a == b
  {
    if CacheKey(a) == CacheKey(b) {
      assert a == CacheKey(a)[6..] == CacheKey(b)[6..] == b;
    }
  }

  /** One daily candle from the upstream history. */
  datatype Candle = Candle(dateTime: Instant, open: real, high: real, low: real, close: real,
                           adjustedClose: real, volume: int)

  /** HistoricalBarDto. */
  datatype HistoricalBar = HistoricalBar(date: Instant, open: real, high: real, low: real, close: real,
                                         adjustedClose: real, volume: int)

  function ToBar(candle: Candle): HistoricalBar {
    HistoricalBar(candle.dateTime, candle.open, candle.high, candle.low, candle.close,
                  candle.adjustedClose, candle.volume)
  }

  function BarDateLe(a: HistoricalBar, b: HistoricalBar): bool {
    a.date <= b.date
  }

  /** The bars of a candle sequence, in the candles' order. */
  function Bars(candles: seq<Candle>): (r: seq<HistoricalBar>)
    ensures |r| == |candles|
    ensures forall i :: 0 <= i < |candles| ==> r[i] == ToBar(candles[i])
  {
    if candles == [] then [] else [ToBar(candles[0])] + Bars(candles[1..])
  }

  /**
   * GetHistoricalAsync: the daily candles for the normalised symbol, one bar
   * per candle, ordered by date ascending.
   */
  function GetHistorical(symbol: string, startDate: Instant, endDate: Instant,
                         history: (string, Instant, Instant) -> seq<Candle>): (r: seq<HistoricalBar>)
    ensures var candles := history(NormalizeSymbol(symbol), startDate, endDate);
      && |r| == |candles|
      && multiset(r) == multiset(Bars(candles))
      && forall i, j :: 0 <= i < j < |r| ==> r[i].date <= r[j].date
  {
    var bars := Bars(history(NormalizeSymbol(symbol), startDate, endDate));
    assert TotalPreorder(BarDateLe);
    SortBy(bars, BarDateLe)
  }
}
