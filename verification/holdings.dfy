/**
 * HoldingsController: the holdings of one of the caller's portfolios, read,
 * created, replaced and deleted. A stored holding always carries a
 * normalised symbol, one of the three allowed currency codes and a group the
 * caller owns.
 */
module Holdings {
  import opened Wrappers
  import opened Text
  import opened Time
  import opened CurrencyHelper
  import opened MarketData
  import opened Store

  /** The non-success answers of the controller. */
  datatype HoldingError =
    | Unauthorized     // no user id in the caller's token
    | NotFound         // no such portfolio of the caller, or no such holding in it
    | InvalidCurrency  // invalid_currency
    | InvalidGroup     // invalid_group

  /** HoldingDto. */
  datatype HoldingDto = HoldingDto(id: nat, portfolioId: nat, symbol: string, quantity: real,
                                   averagePurchasePrice: real, currency: string, purchaseDate: Instant,
                                   groupId: nat, groupName: string)

  /** CreateHoldingRequest and UpdateHoldingRequest, which carry the same fields. */
  datatype HoldingRequest = HoldingRequest(symbol: string, quantity: real, averagePurchasePrice: real,
                                           currency: string, purchaseDate: Option<Instant>, groupId: nat)

  /** MapHolding: the row's fields, with the name of its group or "Uncategorized" when the group row is gone. */
  function MapHolding(holding: Holding, groups: seq<HoldingGroup>): (r: HoldingDto)
    ensures r.id == holding.id && r.portfolioId == holding.portfolioId && r.groupId == holding.groupId
    ensures r.symbol == holding.symbol && r.currency == holding.currency && r.purchaseDate == holding.purchaseDate
    ensures r.quantity == holding.quantity && r.averagePurchasePrice == holding.averagePurchasePrice
    ensures (exists i :: 0 <= i < |groups| && groups[i].id == holding.groupId) ==>
      exists i :: 0 <= i < |groups| && groups[i].id == holding.groupId && r.groupName == groups[i].name
    ensures (forall i :: 0 <= i < |groups| ==> groups[i].id != holding.groupId) ==> r.groupName == UncategorizedName
  {
    HoldingDto(holding.id, holding.portfolioId, holding.symbol, holding.quantity, holding.averagePurchasePrice,
               holding.currency, holding.purchaseDate, holding.groupId, GroupNameOf(holding, groups))
  }

  /** `HoldingGroups.Any(group => group.Id == groupId && group.UserId == userId)`. */
  predicate GroupOwned(groups: seq<HoldingGroup>, groupId: nat, userId: string) {
    exists i :: 0 <= i < |groups| && groups[i].id == groupId && groups[i].userId == userId
  }

  /** Every stored holding carries one of the allowed currency codes, as written. */
  predicate CurrenciesAllowed(holdings: seq<Holding>) {
    forall i :: 0 <= i < |holdings| ==> holdings[i].currency in AllowedCodes
  }

  /** The row a request describes, with the given identity, portfolio and purchase date. */
  function FromRequest(id: nat, portfolioId: nat, request: HoldingRequest, purchaseDate: Instant): Holding {
    Holding(id, NormalizeSymbol(request.symbol), request.quantity, request.averagePurchasePrice,
            NormalizeCurrency(request.currency), purchaseDate, portfolioId, request.groupId)
  }

  /** The request's currency passes the allow-list exactly when its normalised code is EUR, USD or RON. */
  lemma RequestCurrency(request: HoldingRequest)
    ensures IsAllowed(NormalizeCurrency(request.currency)) <==> NormalizeCurrency(request.currency) in AllowedCodes
  {
    NormalizedMembership(request.currency);
  }

  // ---------------------------------------------------------------- Reading

  /** `FirstOrDefault(h => h.Id == id && h.PortfolioId == portfolioId)`, as an index. */
  function FindHolding(holdings: seq<Holding>, id: nat, portfolioId: nat): (r: Option<nat>)
    ensures r.None? <==> forall i :: 0 <= i < |holdings| ==> !(holdings[i].id == id && holdings[i].portfolioId == portfolioId)
    ensures r.Some? ==> r.value < |holdings| && holdings[r.value].id == id && holdings[r.value].portfolioId == portfolioId
    ensures r.Some? ==> forall j :: 0 <= j < r.value ==> !(holdings[j].id == id && holdings[j].portfolioId == portfolioId)
  {
    if holdings == [] then None
    else if holdings[0].id == id && holdings[0].portfolioId == portfolioId then Some(0)
    else
      match FindHolding(holdings[1..], id, portfolioId)
      case None => None
      case Some(i) => Some(i + 1)
  }

  /** The DTOs of a sequence of rows, in order. */
  function MapHoldings(holdings: seq<Holding>, groups: seq<HoldingGroup>): (r: seq<HoldingDto>)
    ensures |r| == |holdings|
    ensures forall k :: 0 <= k < |holdings| ==> r[k] == MapHolding(holdings[k], groups)
  {
    seq(|holdings|, k requires 0 <= k < |holdings| => MapHolding(holdings[k], groups))
  }

  /** GetHoldings: every holding of one of the caller's portfolios, mapped, and nothing else. */
  function GetHoldings(portfolios: seq<Portfolio>, holdings: seq<Holding>, groups: seq<HoldingGroup>,
                       userId: Option<string>, portfolioId: nat)
    : (r: Result<seq<HoldingDto>, HoldingError>)
    ensures r == Failure(Unauthorized) <==> IsNullOrWhiteSpace(userId)
    ensures r == Failure(NotFound) <==> !IsNullOrWhiteSpace(userId) && !PortfolioExists(portfolios, portfolioId, userId.value)
    ensures r.Success? ==> |r.value| == |PortfolioHoldings(holdings, portfolioId)|
    ensures r.Success? ==> forall d :: d in r.value <==>
      exists h :: h in holdings && h.portfolioId == portfolioId && d == MapHolding(h, groups)
  {
    if IsNullOrWhiteSpace(userId) then Failure(Unauthorized)
    else if !PortfolioExists(portfolios, portfolioId, userId.value) then Failure(NotFound)
    else
      var own := PortfolioHoldings(holdings, portfolioId);
      var dtos := MapHoldings(own, groups);
      assert forall d :: d in dtos ==> exists h :: h in own && d == MapHolding(h, groups) by {
        forall d | d in dtos ensures exists h :: h in own && d == MapHolding(h, groups) {
          var k :| 0 <= k < |dtos| && dtos[k] == d;
          assert own[k] in own;
        }
      }
      assert forall h :: h in own ==> MapHolding(h, groups) in dtos by {
        forall h | h in own ensures MapHolding(h, groups) in dtos {
          var k :| 0 <= k < |own| && own[k] == h;
          assert dtos[k] == MapHolding(h, groups);
        }
      }
      Success(dtos)
  }

  /** GetHolding: the holding with that id in one of the caller's portfolios, or NotFound. */
  function GetHolding(portfolios: seq<Portfolio>, holdings: seq<Holding>, groups: seq<HoldingGroup>,
                      userId: Option<string>, portfolioId: nat, id: nat)
    : (r: Result<HoldingDto, HoldingError>)
    ensures r == Failure(Unauthorized) <==> IsNullOrWhiteSpace(userId)
    ensures r.Success? <==>
      && !IsNullOrWhiteSpace(userId) && PortfolioExists(portfolios, portfolioId, userId.value)
      && exists i :: 0 <= i < |holdings| && holdings[i].id == id && holdings[i].portfolioId == portfolioId
    ensures r.Success? ==>
      exists i :: 0 <= i < |holdings| && holdings[i].id == id && holdings[i].portfolioId == portfolioId &&
                  r.value == MapHolding(holdings[i], groups)
    ensures r.Failure? && r != Failure(Unauthorized) ==> r == Failure(NotFound)
  {
    if IsNullOrWhiteSpace(userId) then Failure(Unauthorized)
    else if !PortfolioExists(portfolios, portfolioId, userId.value) then Failure(NotFound)
    else
      match FindHolding(holdings, id, portfolioId)
      case None => Failure(NotFound)
      case Some(i) => Success(MapHolding(holdings[i], groups))
  }

  /** With unique ids, a row is the first one that matches its own id and portfolio. */
  lemma FindUnique(holdings: seq<Holding>, next: nat, i: nat)
    requires IdsBelow(HoldingIds(holdings), next) && i < |holdings|
    ensures FindHolding(holdings, holdings[i].id, holdings[i].portfolioId) == Some(i)
  {
    var h := holdings[i];
    var r := FindHolding(holdings, h.id, h.portfolioId);
    assert r.Some? by {
      assert holdings[i].id == h.id && holdings[i].portfolioId == h.portfolioId;
    }
    var k := r.value;
    var ids := HoldingIds(holdings);
    assert ids[k] == ids[i];
    assert k <= i;
    assert k == i by {
      assert forall a, b :: 0 <= a < b < |ids| ==> ids[a] != ids[b];
    }
  }

  // ---------------------------------------------------------------- Changing

  /** `Holdings.Add` and SaveChanges: the row is appended under the next identity value. */
  method AddHolding(db: Database, row: Holding)
    requires db.Valid() && row.id == db.nextHoldingId
    modifies db
    ensures db.Valid()
    ensures db.holdings == old(db.holdings) + [row]
    ensures db.nextHoldingId == old(db.nextHoldingId) + 1
    ensures db.portfolios == old(db.portfolios) && db.groups == old(db.groups) && db.snapshots == old(db.snapshots)
    ensures db.users == old(db.users) && db.nextGroupId == old(db.nextGroupId) && db.nextSnapshotId == old(db.nextSnapshotId)
  {
    assert HoldingIds(db.holdings + [row]) == HoldingIds(db.holdings) + [row.id];
    IdsBelowAppend(HoldingIds(db.holdings), db.nextHoldingId);
    db.holdings := db.holdings + [row];
    db.nextHoldingId := db.nextHoldingId + 1;
  }

  /**
   * CreateHolding at time `now`: after the caller, portfolio, currency and
   * group checks, in that order, one row is appended with the next identity
   * value, and the answer is what GetHolding now returns for it.
   */
  method CreateHolding(db: Database, userId: Option<string>, portfolioId: nat, request: HoldingRequest, now: Instant)
    returns (r: Result<HoldingDto, HoldingError>)
    requires db.Valid()
    modifies db
    ensures db.Valid()
    ensures IsNullOrWhiteSpace(userId) ==> r == Failure(Unauthorized) && unchanged(db)
    ensures !IsNullOrWhiteSpace(userId) && !PortfolioExists(db.portfolios, portfolioId, userId.value) ==>
      r == Failure(NotFound) && unchanged(db)
    ensures !IsNullOrWhiteSpace(userId) && PortfolioExists(db.portfolios, portfolioId, userId.value) ==>
      && (NormalizeCurrency(request.currency) !in AllowedCodes ==> r == Failure(InvalidCurrency) && unchanged(db))
      && (NormalizeCurrency(request.currency) in AllowedCodes && !GroupOwned(db.groups, request.groupId, userId.value) ==>
            r == Failure(InvalidGroup) && unchanged(db))
      && (NormalizeCurrency(request.currency) in AllowedCodes && GroupOwned(db.groups, request.groupId, userId.value) ==>
            var row := FromRequest(old(db.nextHoldingId), portfolioId, request, request.purchaseDate.GetOr(now));
            && db.holdings == old(db.holdings) + [row]
            && db.nextHoldingId == old(db.nextHoldingId) + 1
            && r == GetHolding(db.portfolios, db.holdings, db.groups, userId, portfolioId, row.id)
            && r.Success?)
    ensures CurrenciesAllowed(old(db.holdings)) ==> CurrenciesAllowed(db.holdings)
    ensures db.portfolios == old(db.portfolios) && db.groups == old(db.groups) && db.snapshots == old(db.snapshots)
    ensures db.users == old(db.users) && db.nextGroupId == old(db.nextGroupId) && db.nextSnapshotId == old(db.nextSnapshotId)
  {
    if IsNullOrWhiteSpace(userId) {
      return Failure(Unauthorized);
    }
    if !PortfolioExists(db.portfolios, portfolioId, userId.value) {
      return Failure(NotFound);
    }
    var normalizedCurrency := NormalizeCurrency(request.currency);
    RequestCurrency(request);
    if !IsAllowed(normalizedCurrency) {
      return Failure(InvalidCurrency);
    }
    if !GroupOwned(db.groups, request.groupId, userId.value) {
      return Failure(InvalidGroup);
    }
    var row := FromRequest(db.nextHoldingId, portfolioId, request, request.purchaseDate.GetOr(now));
    AddHolding(db, row);
    FindUnique(db.holdings, db.nextHoldingId, |db.holdings| - 1);
    r := Success(MapHolding(row, db.groups));
  }

  /**
   * UpdateHolding: after the caller, portfolio, holding, currency and group
   * checks, in that order, the holding's fields are replaced by the
   * request's; a request without a purchase date keeps the stored one.
   */
  method UpdateHolding(db: Database, userId: Option<string>, portfolioId: nat, id: nat, request: HoldingRequest)
    returns (r: Result<(), HoldingError>)
    requires db.Valid()
    modifies db
    ensures db.Valid()
    ensures IsNullOrWhiteSpace(userId) ==> r == Failure(Unauthorized) && unchanged(db)
    ensures !IsNullOrWhiteSpace(userId) && !PortfolioExists(db.portfolios, portfolioId, userId.value) ==>
      r == Failure(NotFound) && unchanged(db)
    ensures !IsNullOrWhiteSpace(userId) && PortfolioExists(db.portfolios, portfolioId, userId.value) &&
            FindHolding(old(db.holdings), id, portfolioId).None? ==>
      r == Failure(NotFound) && unchanged(db)
    ensures !IsNullOrWhiteSpace(userId) && PortfolioExists(db.portfolios, portfolioId, userId.value) &&
            FindHolding(old(db.holdings), id, portfolioId).Some? ==>
      var i := FindHolding(old(db.holdings), id, portfolioId).value;
      var held := old(db.holdings)[i];
      && (NormalizeCurrency(request.currency) !in AllowedCodes ==> r == Failure(InvalidCurrency) && unchanged(db))
      && (NormalizeCurrency(request.currency) in AllowedCodes && !GroupOwned(db.groups, request.groupId, userId.value) ==>
            r == Failure(InvalidGroup) && unchanged(db))
      && (NormalizeCurrency(request.currency) in AllowedCodes && GroupOwned(db.groups, request.groupId, userId.value) ==>
            var row := FromRequest(id, portfolioId, request, request.purchaseDate.GetOr(held.purchaseDate));
            && r == Success(())
            && db.holdings == old(db.holdings)[i := row]
            && GetHolding(db.portfolios, db.holdings, db.groups, userId, portfolioId, id) ==
               Success(MapHolding(row, db.groups)))
    ensures CurrenciesAllowed(old(db.holdings)) ==> CurrenciesAllowed(db.holdings)
    ensures db.portfolios == old(db.portfolios) && db.groups == old(db.groups) && db.snapshots == old(db.snapshots)
    ensures db.users == old(db.users) && db.nextGroupId == old(db.nextGroupId)
    ensures db.nextHoldingId == old(db.nextHoldingId) && db.nextSnapshotId == old(db.nextSnapshotId)
  {
    if IsNullOrWhiteSpace(userId) {
      return Failure(Unauthorized);
    }
    if !PortfolioExists(db.portfolios, portfolioId, userId.value) {
      return Failure(NotFound);
    }
    var found := FindHolding(db.holdings, id, portfolioId);
    if found.None? {
      return Failure(NotFound);
    }
    var i := found.value;
    var normalizedCurrency := NormalizeCurrency(request.currency);
    RequestCurrency(request);
    if !IsAllowed(normalizedCurrency) {
      return Failure(InvalidCurrency);
    }
    if !GroupOwned(db.groups, request.groupId, userId.value) {
      return Failure(InvalidGroup);
    }
    var row := FromRequest(id, portfolioId, request, request.purchaseDate.GetOr(db.holdings[i].purchaseDate));
    assert HoldingIds(db.holdings[i := row]) == HoldingIds(db.holdings);
    db.holdings := db.holdings[i := row];
    FindUnique(db.holdings, db.nextHoldingId, i);
    return Success(());
  }

  /** `Remove(holding)`: the i-th holding row leaves the table, and no row keeps its id. */
  method RemoveHolding(db: Database, i: nat)
    requires db.Valid() && i < |db.holdings|
    modifies db
    ensures db.Valid()
    ensures db.holdings == RemoveAt(old(db.holdings), i)
    ensures forall h :: h in db.holdings ==> h.id != old(db.holdings)[i].id
    ensures db.groups == old(db.groups) && db.portfolios == old(db.portfolios) && db.snapshots == old(db.snapshots)
    ensures db.users == old(db.users) && db.nextGroupId == old(db.nextGroupId)
    ensures db.nextHoldingId == old(db.nextHoldingId) && db.nextSnapshotId == old(db.nextSnapshotId)
  {
    var id := db.holdings[i].id;
    assert HoldingIds(RemoveAt(db.holdings, i)) == RemoveAt(HoldingIds(db.holdings), i);
    IdsBelowRemove(HoldingIds(db.holdings), i, db.nextHoldingId);
    db.holdings := RemoveAt(db.holdings, i);
    assert forall k :: 0 <= k < |db.holdings| ==> db.holdings[k].id == HoldingIds(db.holdings)[k] != id;
  }

  /**
   * DeleteHolding: after the caller, portfolio and holding checks the
   * holding's row is removed, after which GetHolding no longer finds it.
   */
  method DeleteHolding(db: Database, userId: Option<string>, portfolioId: nat, id: nat)
    returns (r: Result<(), HoldingError>)
    requires db.Valid()
    modifies db
    ensures db.Valid()
    ensures IsNullOrWhiteSpace(userId) ==> r == Failure(Unauthorized) && unchanged(db)
    ensures !IsNullOrWhiteSpace(userId) && !PortfolioExists(db.portfolios, portfolioId, userId.value) ==>
      r == Failure(NotFound) && unchanged(db)
    ensures !IsNullOrWhiteSpace(userId) && PortfolioExists(db.portfolios, portfolioId, userId.value) &&
            FindHolding(old(db.holdings), id, portfolioId).None? ==>
      r == Failure(NotFound) && unchanged(db)
    ensures !IsNullOrWhiteSpace(userId) && PortfolioExists(db.portfolios, portfolioId, userId.value) &&
            FindHolding(old(db.holdings), id, portfolioId).Some? ==>
      && r == Success(())
      && db.holdings == RemoveAt(old(db.holdings), FindHolding(old(db.holdings), id, portfolioId).value)
      && GetHolding(db.portfolios, db.holdings, db.groups, userId, portfolioId, id) == Failure(NotFound)
    ensures CurrenciesAllowed(old(db.holdings)) ==> CurrenciesAllowed(db.holdings)
    ensures db.portfolios == old(db.portfolios) && db.groups == old(db.groups) && db.snapshots == old(db.snapshots)
    ensures db.users == old(db.users) && db.nextGroupId == old(db.nextGroupId)
    ensures db.nextHoldingId == old(db.nextHoldingId) && db.nextSnapshotId == old(db.nextSnapshotId)
  {
    if IsNullOrWhiteSpace(userId) {
      return Failure(Unauthorized);
    }
    if !PortfolioExists(db.portfolios, portfolioId, userId.value) {
      return Failure(NotFound);
    }
    var found := FindHolding(db.holdings, id, portfolioId);
    if found.None? {
      return Failure(NotFound);
    }
    RemoveHolding(db, found.value);
    assert forall k :: 0 <= k < |db.holdings| ==> db.holdings[k].id != id by {
      forall k | 0 <= k < |db.holdings| ensures db.holdings[k].id != id {
        assert db.holdings[k] in db.holdings;
      }
    }
    return Success(());
  }
}
