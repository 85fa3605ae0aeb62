/**
 * EcbFxRateService: conversion through EUR, parsing of the ECB daily feed, and
 * the two-slot rate cache in front of the feed.
 */
module EcbFxRates {
  import opened Wrappers
  import opened Text
  import opened Time
  import opened DecimalMath
  import opened CurrencyHelper

  /** FxRateSnapshot: how many USD and RON one EUR buys, and the feed's as-of time. */
  datatype FxRateSnapshot = FxRateSnapshot(eurUsd: real, eurRon: real, retrievedAtUtc: Instant)

  /** The exceptions the service throws. */
  datatype FxError =
    | UnsupportedCurrency(code: string)  // InvalidOperationException from Convert
    | DivideByZero                       // decimal division by a zero rate
    | RatesUnavailable                   // no feed and no last-known-good value

  // ---------------------------------------------------------------- Convert

  /** How many units of `code` one EUR buys, for the three supported codes. */
  function EurRate(code: string, rates: FxRateSnapshot): Option<real> {
    if code == "EUR" then Some(1.0)
    else if code == "USD" then Some(rates.eurUsd)
    else if code == "RON" then Some(rates.eurRon)
    else None
  }

  lemma EurRateDefinedForAllowed(code: string, rates: FxRateSnapshot)
    ensures EurRate(code, rates).Some? <==> code in AllowedCodes
  {
  }

  /** The first switch of Convert: the amount expressed in EUR. */
  function ToEur(amount: real, from: string, rates: FxRateSnapshot): Result<real, FxError> {
    if from == "EUR" then Success(amount)
    else if from == "USD" then (if rates.eurUsd == 0.0 then Failure(DivideByZero) else Success(amount / rates.eurUsd))
    else if from == "RON" then (if rates.eurRon == 0.0 then Failure(DivideByZero) else Success(amount / rates.eurRon))
    else Failure(UnsupportedCurrency(from))
  }

  /** The second switch of Convert: an EUR amount expressed in `to`. */
  function FromEur(amountInEur: real, to: string, rates: FxRateSnapshot): Result<real, FxError> {
    if to == "EUR" then Success(amountInEur)
    else if to == "USD" then Success(amountInEur * rates.eurUsd)
    else if to == "RON" then Success(amountInEur * rates.eurRon)
    else Failure(UnsupportedCurrency(to))
  }

  lemma ToEurSpec(amount: real, from: string, rates: FxRateSnapshot)
    ensures from !in AllowedCodes ==> ToEur(amount, from, rates) == Failure(UnsupportedCurrency(from))
    ensures from in AllowedCodes && EurRate(from, rates).value == 0.0 ==> ToEur(amount, from, rates) == Failure(DivideByZero)
    ensures from in AllowedCodes && EurRate(from, rates).value != 0.0 ==>
              ToEur(amount, from, rates).Success? && ToEur(amount, from, rates).value == amount / EurRate(from, rates).value
  {
  }

  lemma FromEurSpec(amountInEur: real, to: string, rates: FxRateSnapshot)
    ensures to !in AllowedCodes ==> FromEur(amountInEur, to, rates) == Failure(UnsupportedCurrency(to))
    ensures to in AllowedCodes ==>
              FromEur(amountInEur, to, rates).Success? && FromEur(amountInEur, to, rates).value == amountInEur * EurRate(to, rates).value
  {
  }

  /** The exact value of `amount` in `to`, pivoting through EUR (before rounding). */
  function PivotAmount(amount: real, from: string, to: string, rates: FxRateSnapshot): real
    requires from in AllowedCodes && to in AllowedCodes && EurRate(from, rates).value != 0.0
  {
    var amountInEur := if from == "EUR" then amount else amount / EurRate(from, rates).value;
    if to == "EUR" then amountInEur else amountInEur * EurRate(to, rates).value
  }

  /**
   * Convert after its two codes are normalised. Equal codes give the amount
   * back untouched (whatever the code); otherwise the amount is divided by the
   * source's EUR rate, multiplied by the target's, and rounded to 4 places
   * away from zero. An unsupported source is reported before the target is
   * looked at; a zero source rate is decimal's DivideByZeroException.
   */
  function ConvertCodes(amount: real, from: string, to: string, rates: FxRateSnapshot): (r: Result<real, FxError>)
    ensures from == to ==> r == Success(amount)
    ensures from != to ==>
      && (from !in AllowedCodes ==> r == Failure(UnsupportedCurrency(from)))
      && (from in AllowedCodes && EurRate(from, rates).value == 0.0 ==> r == Failure(DivideByZero))
      && (from in AllowedCodes && EurRate(from, rates).value != 0.0 && to !in AllowedCodes ==>
            r == Failure(UnsupportedCurrency(to)))
      && (from in AllowedCodes && to in AllowedCodes && EurRate(from, rates).value != 0.0 ==>
            r.Success? && r.value == Round4AwayFromZero(PivotAmount(amount, from, to, rates)))
  {
    if from == to then Success(amount)
    else
      ToEurSpec(amount, from, rates);
      match ToEur(amount, from, rates)
      case Failure(e) => Failure(e)
      case Success(amountInEur) =>
        FromEurSpec(amountInEur, to, rates);
        match FromEur(amountInEur, to, rates)
        case Failure(e) => Failure(e)
        case Success(converted) =>
          assert from in AllowedCodes && to in AllowedCodes ==> converted == PivotAmount(amount, from, to, rates);
          Success(Round4AwayFromZero(converted))
  }

  /** EcbFxRateService.Convert: normalise both codes, then convert. */
  function Convert(amount: real, fromCurrency: string, toCurrency: string, rates: FxRateSnapshot): (r: Result<real, FxError>)
  {
    var from := NormalizeCurrency(fromCurrency);
    var to := NormalizeCurrency(toCurrency);
    ConvertCodes(amount, from, to, rates)
  }

  /** Same currency in, same amount out, with no rounding: for any pair of spellings of one code. */
  lemma ConvertIdentity(amount: real, fromCurrency: string, toCurrency: string, rates: FxRateSnapshot)
    requires NormalizeCurrency(fromCurrency) == NormalizeCurrency(toCurrency)
    ensures Convert(amount, fromCurrency, toCurrency, rates) == Success(amount)
  {
  }

  /** A successful conversion between two different codes is within half a unit of the exact pivot value. */
  lemma ConvertCodesNear(amount: real, from: string, to: string, rates: FxRateSnapshot)
    requires from != to && from in AllowedCodes && to in AllowedCodes
    requires EurRate(from, rates).value != 0.0
    ensures ConvertCodes(amount, from, to, rates).Success?
    ensures -0.00005 <= ConvertCodes(amount, from, to, rates).value - PivotAmount(amount, from, to, rates) <= 0.00005
  {
  }

  /** Converting into EUR rounds `amount / ka`. */
  lemma ConvertIntoEur(amount: real, from: string, rates: FxRateSnapshot, ka: real)
    requires from != "EUR" && from in AllowedCodes && ka == EurRate(from, rates).value && ka != 0.0
    ensures ConvertCodes(amount, from, "EUR", rates).Success?
    ensures ConvertCodes(amount, from, "EUR", rates).value == Round4AwayFromZero(amount / ka)
    ensures -0.00005 <= ConvertCodes(amount, from, "EUR", rates).value - amount / ka <= 0.00005
  {
    assert PivotAmount(amount, from, "EUR", rates) == amount / ka;
  }

  /** Converting out of EUR rounds `amount * kb`. */
  lemma ConvertOutOfEur(amount: real, to: string, rates: FxRateSnapshot, kb: real)
    requires to != "EUR" && to in AllowedCodes && kb == EurRate(to, rates).value
    ensures ConvertCodes(amount, "EUR", to, rates).Success?
    ensures ConvertCodes(amount, "EUR", to, rates).value == Round4AwayFromZero(amount * kb)
    ensures -0.00005 <= ConvertCodes(amount, "EUR", to, rates).value - amount * kb <= 0.00005
  {
    assert PivotAmount(amount, "EUR", to, rates) == amount * kb;
  }

  /** Converting between USD and RON rounds `amount / ka * kb`. */
  lemma ConvertAcross(amount: real, from: string, to: string, rates: FxRateSnapshot, ka: real, kb: real)
    requires from != to && from != "EUR" && to != "EUR" && from in AllowedCodes && to in AllowedCodes
    requires ka == EurRate(from, rates).value && kb == EurRate(to, rates).value && ka != 0.0
    ensures ConvertCodes(amount, from, to, rates).Success?
    ensures ConvertCodes(amount, from, to, rates).value == Round4AwayFromZero(amount / ka * kb)
    ensures -0.00005 <= ConvertCodes(amount, from, to, rates).value - amount / ka * kb <= 0.00005
  {
    assert PivotAmount(amount, from, to, rates) == amount / ka * kb;
  }

  /** The size of a rate, whatever its sign. */
  function RateMagnitude(k: real): (m: real)
    ensures m >= 0.0 && (m == k || m == -k)
  {
    if k < 0.0 then -k else k
  }

  /** An error of at most `e` grows to at most `e * |k|` when multiplied by `k`. */
  lemma ScaledError(d: real, k: real, e: real)
    requires -e <= d <= e
    ensures -e * RateMagnitude(k) <= d * k <= e * RateMagnitude(k)
  {
    var m := RateMagnitude(k);
    ProductNonNegative(e - d, m);
    ProductNonNegative(d + e, m);
    if k >= 0.0 {
      assert (e - d) * m == e * m - d * k && (d + e) * m == d * k + e * m;
    } else {
      assert (e - d) * m == d * k - e * k && (d + e) * m == -(d * k) - e * k;
    }
  }

  /** Two non-negative factors give a non-negative product. */
  lemma ProductNonNegative(a: real, b: real)
    requires a >= 0.0 && b >= 0.0
    ensures a * b >= 0.0
  {
  }

  /**
   * Arithmetic of the pivot: an EUR amount `y` within half a unit of the exact
   * `amount / ka`, scaled by `kb` and rounded to `twoLegs`, is within
   * 0.0001 + 0.00005 * |kb| of `direct`, a rounding of `amount / ka * kb`.
   */
  lemma TwoRoundingsNear(amount: real, ka: real, y: real, kb: real, twoLegs: real, direct: real)
    requires ka != 0.0 && -0.00005 <= y - amount / ka <= 0.00005
    requires -0.00005 <= twoLegs - y * kb <= 0.00005
    requires -0.00005 <= direct - amount / ka * kb <= 0.00005
    ensures -(0.0001 + 0.00005 * RateMagnitude(kb)) <= twoLegs - direct <= 0.0001 + 0.00005 * RateMagnitude(kb)
  {
    ScaledError(y - amount / ka, kb, 0.00005);
    assert -0.00005 * RateMagnitude(kb) <= y * kb - amount / ka * kb <= 0.00005 * RateMagnitude(kb) by {
      assert y * kb - amount / ka * kb == (y - amount / ka) * kb;
    }
  }

  /**
   * The same when the target is the source itself: `twoLegs` is within
   * 0.00005 + 0.00005 * |k| of the starting amount.
   */
  lemma RoundTripNear(amount: real, k: real, y: real, twoLegs: real)
    requires k != 0.0 && -0.00005 <= y - amount / k <= 0.00005
    requires -0.00005 <= twoLegs - y * k <= 0.00005
    ensures -(0.00005 + 0.00005 * RateMagnitude(k)) <= twoLegs - amount <= 0.00005 + 0.00005 * RateMagnitude(k)
  {
    ScaledError(y - amount / k, k, 0.00005);
    assert -0.00005 * RateMagnitude(k) <= y * k - amount <= 0.00005 * RateMagnitude(k) by {
      assert y * k - amount == (y - amount / k) * k;
    }
  }

  /**
   * The second leg of a pivot between USD and RON: any EUR amount within half
   * a unit of `amount / ka`, converted to `to`, is within
   * 0.0001 + 0.00005 * |kb| of converting `amount` directly.
   */
  lemma PivotLegs(amount: real, inEur: real, from: string, to: string, rates: FxRateSnapshot, ka: real, kb: real)
    requires from != "EUR" && to != "EUR" && from in AllowedCodes && to in AllowedCodes
    requires ka == EurRate(from, rates).value && kb == EurRate(to, rates).value && ka != 0.0
    requires -0.00005 <= inEur - amount / ka <= 0.00005
    ensures ConvertCodes(inEur, "EUR", to, rates).Success? && ConvertCodes(amount, from, to, rates).Success?
    ensures -(0.0001 + 0.00005 * RateMagnitude(kb))
              <= ConvertCodes(inEur, "EUR", to, rates).value - ConvertCodes(amount, from, to, rates).value
              <= 0.0001 + 0.00005 * RateMagnitude(kb)
  {
    if from == to {
      ConvertOutOfEur(inEur, to, rates, ka);
      RoundTripNear(amount, ka, inEur, ConvertCodes(inEur, "EUR", to, rates).value);
    } else {
      ConvertOutOfEur(inEur, to, rates, kb);
      ConvertAcross(amount, from, to, rates, ka, kb);
      TwoRoundingsNear(amount, ka, inEur, kb, ConvertCodes(inEur, "EUR", to, rates).value, ConvertCodes(amount, from, to, rates).value);
    }
  }

  /**
   * Pivot consistency: converting into EUR and then out of it agrees with the
   * direct conversion within 0.0001 plus half a ten-thousandth of the target's
   * EUR rate, the slack of the extra rounding of the EUR leg. Either code
   * being EUR itself makes the two equal.
   */
  lemma PivotConsistent(amount: real, from: string, to: string, rates: FxRateSnapshot)
    requires from in AllowedCodes && to in AllowedCodes && EurRate(from, rates).value != 0.0
    ensures ConvertCodes(amount, from, "EUR", rates).Success?
    ensures ConvertCodes(ConvertCodes(amount, from, "EUR", rates).value, "EUR", to, rates).Success?
    ensures ConvertCodes(amount, from, to, rates).Success?
    ensures from == "EUR" || to == "EUR" ==>
              ConvertCodes(ConvertCodes(amount, from, "EUR", rates).value, "EUR", to, rates) == ConvertCodes(amount, from, to, rates)
    ensures -(0.0001 + 0.00005 * RateMagnitude(EurRate(to, rates).value))
              <= ConvertCodes(ConvertCodes(amount, from, "EUR", rates).value, "EUR", to, rates).value - ConvertCodes(amount, from, to, rates).value
              <= 0.0001 + 0.00005 * RateMagnitude(EurRate(to, rates).value)
  {
    if from != "EUR" && to != "EUR" {
      ConvertIntoEur(amount, from, rates, EurRate(from, rates).value);
      PivotLegs(amount, ConvertCodes(amount, from, "EUR", rates).value, from, to, rates, EurRate(from, rates).value, EurRate(to, rates).value);
    }
  }
  /** Pivot consistency for Convert itself, whatever the spelling of the two codes. */
  lemma ConvertPivotConsistent(amount: real, fromCurrency: string, toCurrency: string, rates: FxRateSnapshot)
    requires NormalizeCurrency(fromCurrency) in AllowedCodes && NormalizeCurrency(toCurrency) in AllowedCodes
    requires EurRate(NormalizeCurrency(fromCurrency), rates).value != 0.0
    ensures Convert(amount, fromCurrency, "EUR", rates).Success?
    ensures Convert(Convert(amount, fromCurrency, "EUR", rates).value, "EUR", toCurrency, rates).Success?
    ensures Convert(amount, fromCurrency, toCurrency, rates).Success?
    ensures -(0.0001 + 0.00005 * RateMagnitude(EurRate(NormalizeCurrency(toCurrency), rates).value))
              <= Convert(Convert(amount, fromCurrency, "EUR", rates).value, "EUR", toCurrency, rates).value - Convert(amount, fromCurrency, toCurrency, rates).value
              <= 0.0001 + 0.00005 * RateMagnitude(EurRate(NormalizeCurrency(toCurrency), rates).value)
  {
    NormalizeCurrencyIdempotent("EUR");
    assert NormalizeCurrency("EUR") == "EUR";
    PivotConsistent(amount, NormalizeCurrency(fromCurrency), NormalizeCurrency(toCurrency), rates);
  }



  // ---------------------------------------------------------------- ParseRates

  /** One `Cube` element of the feed: its `time`, `currency` and `rate` attributes, each possibly absent. */
  datatype Cube = Cube(time: Option<string>, currency: Option<string>, rate: Option<string>)

  /** The date a cube sets: a non-blank `time` that DateTime.TryParse accepts. */
  function CubeDate(cube: Cube, parseDate: string -> Option<Instant>): Option<Instant> {
    if IsNullOrWhiteSpace(cube.time) then None else parseDate(cube.time.value)
  }

  /**
   * The rate a cube gives for `code`: currency and rate both present and not
   * blank, the rate accepted by decimal.TryParse, the currency equal to `code`
   * ignoring case.
   */
  function CubeRate(cube: Cube, code: string, parseDecimal: string -> Option<real>): Option<real> {
    if IsNullOrWhiteSpace(cube.currency) || IsNullOrWhiteSpace(cube.rate) then None
    else match parseDecimal(cube.rate.value)
      case None => None
      case Some(rate) => if EqualsIgnoreCase(cube.currency.value, code) then Some(rate) else None
  }

  /** The rate of the last cube that gives one for `code`. */
  function LastRate(cubes: seq<Cube>, code: string, parseDecimal: string -> Option<real>): Option<real> {
    if cubes == [] then None
    else match CubeRate(cubes[|cubes| - 1], code, parseDecimal)
      case Some(rate) => Some(rate)
      case None => LastRate(cubes[..|cubes| - 1], code, parseDecimal)
  }

  /** The date of the last cube that sets one. */
  function LastDate(cubes: seq<Cube>, parseDate: string -> Option<Instant>): Option<Instant> {
    if cubes == [] then None
    else match CubeDate(cubes[|cubes| - 1], parseDate)
      case Some(d) => Some(d)
      case None => LastDate(cubes[..|cubes| - 1], parseDate)
  }

  /** LastRate finds nothing exactly when no cube gives a rate for `code`. */
  lemma {:induction false} LastRateNone(cubes: seq<Cube>, code: string, parseDecimal: string -> Option<real>)
    ensures LastRate(cubes, code, parseDecimal).None? <==>
              forall i :: 0 <= i < |cubes| ==> CubeRate(cubes[i], code, parseDecimal).None?
  {
    if cubes != [] {
      var init := cubes[..|cubes| - 1];
      LastRateNone(init, code, parseDecimal);
      assert forall i :: 0 <= i < |init| ==> init[i] == cubes[i];
    }
  }

  /** The index of the cube LastRate takes its rate from: no later cube gives one. */
  lemma {:induction false} LastRateIndex(cubes: seq<Cube>, code: string, parseDecimal: string -> Option<real>)
    returns (i: nat)
    requires LastRate(cubes, code, parseDecimal).Some?
    ensures i < |cubes| && CubeRate(cubes[i], code, parseDecimal) == LastRate(cubes, code, parseDecimal)
    ensures forall j :: i < j < |cubes| ==> CubeRate(cubes[j], code, parseDecimal).None?
  {
    var init := cubes[..|cubes| - 1];
    if CubeRate(cubes[|cubes| - 1], code, parseDecimal).Some? {
      i := |cubes| - 1;
    } else {
      i := LastRateIndex(init, code, parseDecimal);
      assert cubes[i] == init[i];
      forall j | i < j < |cubes| ensures CubeRate(cubes[j], code, parseDecimal).None? {
        if j < |init| {
          assert cubes[j] == init[j];
        }
      }
    }
  }

  /** "Last valid occurrence wins": LastRate is the rate of a valid cube after which no valid cube follows. */
  lemma LastRateIsLastValid(cubes: seq<Cube>, code: string, parseDecimal: string -> Option<real>)
    ensures LastRate(cubes, code, parseDecimal).None? <==>
              forall i :: 0 <= i < |cubes| ==> CubeRate(cubes[i], code, parseDecimal).None?
    ensures LastRate(cubes, code, parseDecimal).Some? ==>
              exists i :: 0 <= i < |cubes| && CubeRate(cubes[i], code, parseDecimal) == LastRate(cubes, code, parseDecimal)
                && forall j :: i < j < |cubes| ==> CubeRate(cubes[j], code, parseDecimal).None?
  {
    LastRateNone(cubes, code, parseDecimal);
    if LastRate(cubes, code, parseDecimal).Some? {
      var i := LastRateIndex(cubes, code, parseDecimal);
    }
  }

  /** What ParseRates yields for the feed's cubes, `now` standing for DateTime.UtcNow. */
  function ParsedRates(cubes: seq<Cube>, parseDate: string -> Option<Instant>,
                       parseDecimal: string -> Option<real>, now: Instant): Option<FxRateSnapshot>
  {
    var usd := LastRate(cubes, "USD", parseDecimal);
    var ron := LastRate(cubes, "RON", parseDecimal);
    if usd.None? || ron.None? then None
    else
      var retrieved := match LastDate(cubes, parseDate) case Some(d) => DatePart(d) case None => now;
      Some(FxRateSnapshot(usd.value, ron.value, retrieved))
  }

  /**
   * EcbFxRateService.ParseRates over the feed's already-parsed Cube elements.
   * None stands for the InvalidOperationException thrown when USD or RON is
   * missing.
   */
  method ParseRates(cubes: seq<Cube>, parseDate: string -> Option<Instant>,
                    parseDecimal: string -> Option<real>, now: Instant)
    returns (r: Option<FxRateSnapshot>)
    ensures r.None? <==> LastRate(cubes, "USD", parseDecimal).None? || LastRate(cubes, "RON", parseDecimal).None?
    ensures r.Some? ==>
              && r.value.eurUsd == LastRate(cubes, "USD", parseDecimal).value
              && r.value.eurRon == LastRate(cubes, "RON", parseDecimal).value
    ensures r.Some? && LastDate(cubes, parseDate).Some? ==> r.value.retrievedAtUtc == DatePart(LastDate(cubes, parseDate).value)
    ensures r.Some? && LastDate(cubes, parseDate).None? ==> r.value.retrievedAtUtc == now
    ensures r == ParsedRates(cubes, parseDate, parseDecimal, now)
  {
    var eurUsd: Option<real> := None;
    var eurRon: Option<real> := None;
    var date: Option<Instant> := None;
    for i := 0 to |cubes|
      invariant eurUsd == LastRate(cubes[..i], "USD", parseDecimal)
      invariant eurRon == LastRate(cubes[..i], "RON", parseDecimal)
      invariant date == LastDate(cubes[..i], parseDate)
    {
      var cube := cubes[i];
      assert cubes[..i + 1][..i] == cubes[..i];
      if !IsNullOrWhiteSpace(cube.time) {
        var parsedDate := parseDate(cube.time.value);
        if parsedDate.Some? {
          date := parsedDate;
        }
      }
      if IsNullOrWhiteSpace(cube.currency) || IsNullOrWhiteSpace(cube.rate) {
        continue;
      }
      var rate := parseDecimal(cube.rate.value);
      if rate.None? {
        continue;
      }
      if EqualsIgnoreCase(cube.currency.value, "USD") {
        eurUsd := rate;
      } else if EqualsIgnoreCase(cube.currency.value, "RON") {
        eurRon := rate;
      }
    }
    assert cubes[..|cubes|] == cubes;
    if eurUsd.None? || eurRon.None? {
      return None;
    }
    var retrieved := if date.Some? then DatePart(date.value) else now;
    r := Some(FxRateSnapshot(eurUsd.value, eurRon.value, retrieved));
  }

  // ---------------------------------------------------------------- GetRatesAsync

  /** 30 minutes: lifetime of the primary cache slot. */
  const PrimaryTtl: nat := 30 * SecondsPerMinute
  /** 2 days: lifetime of the last-known-good slot. */
  const LastKnownGoodTtl: nat := 2 * SecondsPerDay

  /** A cached value and the instant from which it no longer reads back. */
  datatype CacheEntry = CacheEntry(value: FxRateSnapshot, expiresAt: Instant)

  /** IMemoryCache.TryGetValue on one slot at time `now`. */
  function Lookup(slot: Option<CacheEntry>, now: Instant): Option<FxRateSnapshot> {
    if slot.Some? && now < slot.value.expiresAt then Some(slot.value.value) else None
  }

  /**
   * The two slots agree: whenever the primary slot holds a snapshot, the
   * last-known-good slot holds the same snapshot and expires no earlier.
   */
  predicate SlotsAgree(primary: Option<CacheEntry>, lastKnownGood: Option<CacheEntry>) {
    primary.Some? ==>
      && lastKnownGood.Some?
      && lastKnownGood.value.value == primary.value.value
      && primary.value.expiresAt <= lastKnownGood.value.expiresAt
  }

  /** While the slots agree, falling back never answers differently from a live primary entry. */
  lemma FallbackAgreesWithPrimary(primary: Option<CacheEntry>, lastKnownGood: Option<CacheEntry>, now: Instant)
    requires SlotsAgree(primary, lastKnownGood)
    ensures Lookup(primary, now).Some? ==> Lookup(lastKnownGood, now) == Lookup(primary, now)
  {
  }

  /** Storing one snapshot in both slots with the two lifetimes makes them agree. */
  lemma RefreshedSlotsAgree(snapshot: FxRateSnapshot, now: Instant)
    ensures SlotsAgree(Some(CacheEntry(snapshot, now + PrimaryTtl)), Some(CacheEntry(snapshot, now + LastKnownGoodTtl)))
    ensures Lookup(Some(CacheEntry(snapshot, now + PrimaryTtl)), now) == Some(snapshot)
  {
  }

  /**
   * The rate provider's cache: the primary slot ("fx:ecb:eurusd_eurron") and
   * the last-known-good slot ("...:last_known_good").
   */
  class FxRateCache {
    var primary: Option<CacheEntry>
    var lastKnownGood: Option<CacheEntry>

    predicate Valid()
      reads this
    {
      SlotsAgree(primary, lastKnownGood)
    }

    constructor ()
      ensures primary.None? && lastKnownGood.None?
      ensures Valid()
    {
      primary := None;
      lastKnownGood := None;
    }

    /**
     * GetRatesAsync at time `now`. `feed` is the outcome of fetching and
     * parsing the XML document: its Cube elements, or None when the HTTP call
     * or the XML parse threw.
     */
    method GetRates(now: Instant, feed: Option<seq<Cube>>, parseDate: string -> Option<Instant>,
                    parseDecimal: string -> Option<real>)
      returns (r: Result<FxRateSnapshot, FxError>)
      requires Valid()
      modifies this
      ensures Valid()
      // A live primary entry is returned as it is; nothing is fetched or stored.
      ensures Lookup(old(primary), now).Some? ==>
        && r == Success(Lookup(old(primary), now).value)
        && primary == old(primary) && lastKnownGood == old(lastKnownGood)
      // Otherwise a successful fetch fills both slots with the same snapshot and returns it.
      ensures Lookup(old(primary), now).None? && feed.Some? && ParsedRates(feed.value, parseDate, parseDecimal, now).Some? ==>
        var snapshot := ParsedRates(feed.value, parseDate, parseDecimal, now).value;
        && r == Success(snapshot)
        && primary == Some(CacheEntry(snapshot, now + PrimaryTtl))
        && lastKnownGood == Some(CacheEntry(snapshot, now + LastKnownGoodTtl))
      // A failed fetch or parse falls back on the last-known-good slot, else throws.
      ensures Lookup(old(primary), now).None? && (feed.None? || ParsedRates(feed.value, parseDate, parseDecimal, now).None?) ==>
        && primary == old(primary) && lastKnownGood == old(lastKnownGood)
        && r == (match Lookup(old(lastKnownGood), now)
                 case Some(v) => Success(v)
                 case None => Failure(RatesUnavailable))
    {
      var cached := Lookup(primary, now);
      if cached.Some? {
        return Success(cached.value);
      }
      var parsed: Option<FxRateSnapshot> := None;
      if feed.Some? {
        parsed := ParseRates(feed.value, parseDate, parseDecimal, now);
      }
      if parsed.Some? {
        primary := Some(CacheEntry(parsed.value, now + PrimaryTtl));
        lastKnownGood := Some(CacheEntry(parsed.value, now + LastKnownGoodTtl));
        return Success(parsed.value);
      }
      var fallback := Lookup(lastKnownGood, now);
      if fallback.Some? {
        return Success(fallback.value);
      }
      return Failure(RatesUnavailable);
    }
  }
}
