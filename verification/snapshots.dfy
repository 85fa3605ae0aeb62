/**
 * The snapshot half of PortfolioAnalyticsService: recording the totals of one
 * analytics run as a PortfolioSnapshot row, and the two queries over those
 * rows (the snapshot list, newest first, and the time series, oldest first).
 */
module PortfolioSnapshots {
  import opened Wrappers
  import opened Time
  import opened Sorting
  import opened EcbFxRates
  import opened MarketData
  import opened Store
  import opened PortfolioAnalytics

  /** PortfolioSnapshotDto. */
  datatype PortfolioSnapshotDto = PortfolioSnapshotDto(
    id: nat,
    portfolioId: nat,
    capturedAtUtc: Instant,
    baseCurrency: string,
    totalMarketValueBase: real,
    totalCostBasisBase: real,
    totalUnrealizedPnLBase: real,
    isPartial: bool,
    missingSymbolsCount: nat,
    fxTimestampUtc: Instant,
    eurUsdRate: real,
    eurRonRate: real)

  /** PortfolioTimeSeriesPointDto. */
  datatype PortfolioTimeSeriesPointDto = PortfolioTimeSeriesPointDto(
    capturedAtUtc: Instant,
    totalMarketValueBase: real,
    totalCostBasisBase: real,
    totalUnrealizedPnLBase: real,
    isPartial: bool)

  /** MapSnapshot: the row without its owner. */
  function MapSnapshot(s: PortfolioSnapshot): PortfolioSnapshotDto {
    PortfolioSnapshotDto(s.id, s.portfolioId, s.capturedAtUtc, s.baseCurrency, s.totalMarketValueBase,
                         s.totalCostBasisBase, s.totalUnrealizedPnLBase, s.isPartial, s.missingSymbolsCount,
                         s.fxTimestampUtc, s.eurUsdRate, s.eurRonRate)
  }

  function ToPoint(s: PortfolioSnapshot): PortfolioTimeSeriesPointDto {
    PortfolioTimeSeriesPointDto(s.capturedAtUtc, s.totalMarketValueBase, s.totalCostBasisBase,
                                s.totalUnrealizedPnLBase, s.isPartial)
  }

  /**
   * The row CreateSnapshotAsync stores: the analytics' base currency, totals
   * and partial flag, stamped with the capture time and the rates' fields.
   */
  function SnapshotRow(id: nat, portfolioId: nat, userId: string, now: Instant,
                       a: PortfolioAnalyticsDto, fx: FxRateSnapshot): PortfolioSnapshot
  {
    PortfolioSnapshot(
      id := id,
      portfolioId := portfolioId,
      userId := userId,
      capturedAtUtc := now,
      baseCurrency := a.baseCurrency,
      totalMarketValueBase := a.totalMarketValueBase,
      totalCostBasisBase := a.totalCostBasisBase,
      totalUnrealizedPnLBase := a.totalUnrealizedPnLBase,
      isPartial := a.isPartial,
      missingSymbolsCount := a.missingSymbolsCount,
      fxTimestampUtc := fx.retrievedAtUtc,
      eurUsdRate := fx.eurUsd,
      eurRonRate := fx.eurRon)
  }

  /** `PortfolioSnapshots.Add` and SaveChanges: the row is appended under the next identity value. */
  method AddSnapshot(db: Database, row: PortfolioSnapshot)
    requires db.Valid() && row.id == db.nextSnapshotId
    modifies db
    ensures db.Valid()
    ensures db.snapshots == old(db.snapshots) + [row]
    ensures db.nextSnapshotId == old(db.nextSnapshotId) + 1
    ensures db.portfolios == old(db.portfolios) && db.groups == old(db.groups)
    ensures db.holdings == old(db.holdings) && db.users == old(db.users)
    ensures db.nextGroupId == old(db.nextGroupId) && db.nextHoldingId == old(db.nextHoldingId)
  {
    assert SnapshotIds(db.snapshots + [row]) == SnapshotIds(db.snapshots) + [row.id];
    IdsBelowAppend(SnapshotIds(db.snapshots), db.nextSnapshotId);
    db.snapshots := db.snapshots + [row];
    db.nextSnapshotId := db.nextSnapshotId + 1;
  }

  /**
   * CreateSnapshotAsync at time `now`: the analytics (valued at `rates`) of the
   * caller's portfolio, stored as a new row stamped with the fields of a
   * second rate lookup `laterRates`. Nothing is stored when the portfolio is
   * not the caller's or either step throws.
   */
  method CreateSnapshot(db: Database, userId: string, portfolioId: nat, now: Instant,
                        rates: Result<FxRateSnapshot, FxError>, laterRates: Result<FxRateSnapshot, FxError>,
                        quote: string -> Option<QuoteDto>)
    returns (r: Result<Option<PortfolioSnapshotDto>, FxError>)
    requires db.Valid()
    modifies db
    ensures db.Valid()
    ensures var analytics := Analytics(old(db.portfolios), old(db.holdings), old(db.groups), old(db.users),
                                       userId, portfolioId, rates, quote);
      // no analytics (not the caller's portfolio), or a failure: nothing is stored
      && (analytics == Success(None) ==> r == Success(None) && unchanged(db))
      && (analytics.Failure? ==> r == Failure(analytics.error) && unchanged(db))
      && (analytics.Success? && analytics.value.Some? && laterRates.Failure? ==>
            r == Failure(laterRates.error) && unchanged(db))
      // otherwise exactly one row is appended, with the next id, and returned
      && (analytics.Success? && analytics.value.Some? && laterRates.Success? ==>
            var row := SnapshotRow(old(db.nextSnapshotId), portfolioId, userId, now,
                                   analytics.value.value, laterRates.value);
            && db.snapshots == old(db.snapshots) + [row]
            && r == Success(Some(MapSnapshot(row)))
            && db.nextSnapshotId == old(db.nextSnapshotId) + 1
            && db.portfolios == old(db.portfolios) && db.groups == old(db.groups)
            && db.holdings == old(db.holdings) && db.users == old(db.users)
            && db.nextGroupId == old(db.nextGroupId) && db.nextHoldingId == old(db.nextHoldingId))
  {
    var analytics := GetPortfolioAnalytics(db, userId, portfolioId, rates, quote);
    if analytics.Failure? {
      return Failure(analytics.error);
    }
    if analytics.value.None? {
      return Success(None);
    }
    if laterRates.Failure? {
      return Failure(laterRates.error);
    }
    var row := SnapshotRow(db.nextSnapshotId, portfolioId, userId, now, analytics.value.value, laterRates.value);
    AddSnapshot(db, row);
    return Success(Some(MapSnapshot(row)));
  }

  /** The query filter: the caller's rows of the portfolio inside the inclusive [from, to] bounds given. */
  predicate InWindow(s: PortfolioSnapshot, userId: string, portfolioId: nat, from: Option<Instant>, to: Option<Instant>) {
    && s.portfolioId == portfolioId
    && s.userId == userId
    && (from.Some? ==> s.capturedAtUtc >= from.value)
    && (to.Some? ==> s.capturedAtUtc <= to.value)
  }

  /** The rows that pass the filter, in table order. */
  function Window(snapshots: seq<PortfolioSnapshot>, userId: string, portfolioId: nat,
                  from: Option<Instant>, to: Option<Instant>): (r: seq<PortfolioSnapshot>)
    ensures forall s :: s in r <==> s in snapshots && InWindow(s, userId, portfolioId, from, to)
    ensures |r| <= |snapshots|
  {
    if snapshots == [] then []
    else
      var rest := Window(snapshots[1..], userId, portfolioId, from, to);
      assert snapshots == [snapshots[0]] + snapshots[1..];
      if InWindow(snapshots[0], userId, portfolioId, from, to) then [snapshots[0]] + rest else rest
  }

  function MapSnapshots(rows: seq<PortfolioSnapshot>): (r: seq<PortfolioSnapshotDto>)
    ensures |r| == |rows| && forall i :: 0 <= i < |rows| ==> r[i] == MapSnapshot(rows[i])
  {
    seq(|rows|, i requires 0 <= i < |rows| => MapSnapshot(rows[i]))
  }

  function ToPoints(rows: seq<PortfolioSnapshot>): (r: seq<PortfolioTimeSeriesPointDto>)
    ensures |r| == |rows| && forall i :: 0 <= i < |rows| ==> r[i] == ToPoint(rows[i])
  {
    seq(|rows|, i requires 0 <= i < |rows| => ToPoint(rows[i]))
  }

  function NewerFirst(a: PortfolioSnapshotDto, b: PortfolioSnapshotDto): bool { a.capturedAtUtc >= b.capturedAtUtc }
  function OlderFirst(a: PortfolioTimeSeriesPointDto, b: PortfolioTimeSeriesPointDto): bool { a.capturedAtUtc <= b.capturedAtUtc }

  /**
   * GetSnapshotsAsync: nothing when the caller does not own the portfolio;
   * otherwise exactly the filtered rows, newest first.
   */
  function GetSnapshots(portfolios: seq<Portfolio>, snapshots: seq<PortfolioSnapshot>, userId: string, portfolioId: nat,
                        from: Option<Instant>, to: Option<Instant>): (r: seq<PortfolioSnapshotDto>)
    ensures !PortfolioExists(portfolios, portfolioId, userId) ==> r == []
    ensures PortfolioExists(portfolios, portfolioId, userId) ==>
      multiset(r) == multiset(MapSnapshots(Window(snapshots, userId, portfolioId, from, to)))
    ensures forall i, j :: 0 <= i < j < |r| ==> r[i].capturedAtUtc >= r[j].capturedAtUtc
  {
    if !PortfolioExists(portfolios, portfolioId, userId) then []
    else
      assert TotalPreorder(NewerFirst);
      SortBy(MapSnapshots(Window(snapshots, userId, portfolioId, from, to)), NewerFirst)
  }

  /** GetTimeSeriesAsync: the filtered rows as points, oldest first; the owner filter is the only check. */
  function GetTimeSeries(snapshots: seq<PortfolioSnapshot>, userId: string, portfolioId: nat,
                         from: Option<Instant>, to: Option<Instant>): (r: seq<PortfolioTimeSeriesPointDto>)
    ensures multiset(r) == multiset(ToPoints(Window(snapshots, userId, portfolioId, from, to)))
    ensures forall i, j :: 0 <= i < j < |r| ==> r[i].capturedAtUtc <= r[j].capturedAtUtc
  {
    assert TotalPreorder(OlderFirst);
    SortBy(ToPoints(Window(snapshots, userId, portfolioId, from, to)), OlderFirst)
  }

  /**
   * For an owned portfolio the list holds a DTO for every row in the window and
   * nothing else; every listed snapshot lies inside the bounds.
   */
  lemma GetSnapshotsMembers(portfolios: seq<Portfolio>, snapshots: seq<PortfolioSnapshot>, userId: string,
                            portfolioId: nat, from: Option<Instant>, to: Option<Instant>)
    requires PortfolioExists(portfolios, portfolioId, userId)
    ensures var r := GetSnapshots(portfolios, snapshots, userId, portfolioId, from, to);
      && (forall s :: s in snapshots && InWindow(s, userId, portfolioId, from, to) ==> MapSnapshot(s) in r)
      && (forall x :: x in r ==> exists s :: s in snapshots && InWindow(s, userId, portfolioId, from, to) && x == MapSnapshot(s))
  {
    var rows := Window(snapshots, userId, portfolioId, from, to);
    var dtos := MapSnapshots(rows);
    var r := GetSnapshots(portfolios, snapshots, userId, portfolioId, from, to);
    forall s | s in snapshots && InWindow(s, userId, portfolioId, from, to) ensures MapSnapshot(s) in r {
      var i :| 0 <= i < |rows| && rows[i] == s;
      assert dtos[i] in multiset(r);
    }
    forall x | x in r ensures exists s :: s in snapshots && InWindow(s, userId, portfolioId, from, to) && x == MapSnapshot(s) {
      assert x in multiset(dtos);
      var i :| 0 <= i < |dtos| && dtos[i] == x;
      assert rows[i] in rows;
    }
  }

  /** Every time-series point comes from one of the caller's rows of that portfolio inside the bounds. */
  lemma GetTimeSeriesMembers(snapshots: seq<PortfolioSnapshot>, userId: string, portfolioId: nat,
                             from: Option<Instant>, to: Option<Instant>)
    ensures var r := GetTimeSeries(snapshots, userId, portfolioId, from, to);
      && (forall s :: s in snapshots && InWindow(s, userId, portfolioId, from, to) ==> ToPoint(s) in r)
      && (forall x :: x in r ==> exists s :: s in snapshots && InWindow(s, userId, portfolioId, from, to) && x == ToPoint(s))
  {
    var rows := Window(snapshots, userId, portfolioId, from, to);
    var points := ToPoints(rows);
    var r := GetTimeSeries(snapshots, userId, portfolioId, from, to);
    forall s | s in snapshots && InWindow(s, userId, portfolioId, from, to) ensures ToPoint(s) in r {
      var i :| 0 <= i < |rows| && rows[i] == s;
      assert points[i] in multiset(r);
    }
    forall x | x in r ensures exists s :: s in snapshots && InWindow(s, userId, portfolioId, from, to) && x == ToPoint(s) {
      assert x in multiset(points);
      var i :| 0 <= i < |points| && points[i] == x;
      assert rows[i] in rows;
    }
  }

  /** For an owned portfolio the snapshot list and the time series have one entry per row in the window. */
  lemma SnapshotsMatchTimeSeries(portfolios: seq<Portfolio>, snapshots: seq<PortfolioSnapshot>, userId: string,
                                 portfolioId: nat, from: Option<Instant>, to: Option<Instant>)
    requires PortfolioExists(portfolios, portfolioId, userId)
    ensures |GetSnapshots(portfolios, snapshots, userId, portfolioId, from, to)|
         == |GetTimeSeries(snapshots, userId, portfolioId, from, to)|
         == |Window(snapshots, userId, portfolioId, from, to)|
  {
    var rows := Window(snapshots, userId, portfolioId, from, to);
    assert |multiset(GetSnapshots(portfolios, snapshots, userId, portfolioId, from, to))| == |multiset(MapSnapshots(rows))|;
    assert |multiset(GetTimeSeries(snapshots, userId, portfolioId, from, to))| == |multiset(ToPoints(rows))|;
  }
}
