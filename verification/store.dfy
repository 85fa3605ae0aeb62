/**
 * The persisted entities and the tables the core reads and writes. Each table
 * is a sequence in the database's row order; new rows get the next identity
 * value of their table.
 */
module Store {
  import opened Wrappers
  import opened Time

  /** The name of every user's default group (HoldingGroupService.UncategorizedName). */
  const UncategorizedName: string := "Uncategorized"

  /** Portfolio. */
  datatype Portfolio = Portfolio(id: nat, userId: string, name: string, description: Option<string>,
                                 createdDate: Instant)

  /** HoldingGroup: a user's named group of holdings. */
  datatype HoldingGroup = HoldingGroup(id: nat, name: string, description: Option<string>, userId: string,
                                       createdAtUtc: Instant, updatedAtUtc: Instant)

  /** Holding: a position in one portfolio, filed under one group. */
  datatype Holding = Holding(id: nat, symbol: string, quantity: real, averagePurchasePrice: real,
                             currency: string, purchaseDate: Instant, portfolioId: nat, groupId: nat)

  /** ApplicationUser, with the names of the roles the identity store gives it. */
  datatype ApplicationUser = ApplicationUser(id: string, email: Option<string>, userName: Option<string>,
                                             isActive: bool, baseCurrency: string, roles: seq<string>)

  /** PortfolioSnapshot: the totals of one analytics run, with the rates it was valued at. */
  datatype PortfolioSnapshot = PortfolioSnapshot(
    id: nat,
    portfolioId: nat,
    userId: string,
    capturedAtUtc: Instant,
    baseCurrency: string,
    totalMarketValueBase: real,
    totalCostBasisBase: real,
    totalUnrealizedPnLBase: real,
    isPartial: bool,
    missingSymbolsCount: nat,
    fxTimestampUtc: Instant,
    eurUsdRate: real,
    eurRonRate: real)

  /** Distinct ids, every one below the next identity value and not zero. */
  predicate IdsBelow(ids: seq<nat>, next: nat) {
    && (forall i :: 0 <= i < |ids| ==> 0 < ids[i] < next)
    && (forall i, j :: 0 <= i < j < |ids| ==> ids[i] != ids[j])
  }

  function GroupIds(groups: seq<HoldingGroup>): (r: seq<nat>)
    ensures |r| == |groups| && forall i :: 0 <= i < |groups| ==> r[i] == groups[i].id
  {
    seq(|groups|, i requires 0 <= i < |groups| => groups[i].id)
  }

  function HoldingIds(holdings: seq<Holding>): (r: seq<nat>)
    ensures |r| == |holdings| && forall i :: 0 <= i < |holdings| ==> r[i] == holdings[i].id
  {
    seq(|holdings|, i requires 0 <= i < |holdings| => holdings[i].id)
  }

  function SnapshotIds(snapshots: seq<PortfolioSnapshot>): (r: seq<nat>)
    ensures |r| == |snapshots| && forall i :: 0 <= i < |snapshots| ==> r[i] == snapshots[i].id
  {
    seq(|snapshots|, i requires 0 <= i < |snapshots| => snapshots[i].id)
  }

  /** Appending a row with the next identity value keeps the ids distinct and below the (advanced) counter. */
  lemma IdsBelowAppend(ids: seq<nat>, next: nat)
    requires IdsBelow(ids, next) && 0 < next
    ensures IdsBelow(ids + [next], next + 1)
  {
  }

  /** The sequence without its i-th element. */
  function RemoveAt<T>(s: seq<T>, i: nat): (r: seq<T>)
    requires i < |s|
    ensures |r| == |s| - 1
    ensures forall j :: 0 <= j < i ==> r[j] == s[j]
    ensures forall j :: i <= j < |r| ==> r[j] == s[j + 1]
  {
    s[..i] + s[i + 1..]
  }

  /** Removing a row keeps the ids distinct and below the counter, and its id is gone. */
  lemma IdsBelowRemove(ids: seq<nat>, i: nat, next: nat)
    requires i < |ids| && IdsBelow(ids, next)
    ensures IdsBelow(RemoveAt(ids, i), next)
    ensures forall k :: 0 <= k < |ids| - 1 ==> RemoveAt(ids, i)[k] != ids[i]
  {
    var r := RemoveAt(ids, i);
    forall a, b | 0 <= a < b < |r| ensures r[a] != r[b] {
      var a' := if a < i then a else a + 1;
      var b' := if b < i then b else b + 1;
      assert ids[a'] != ids[b'];
    }
    forall k | 0 <= k < |r| ensures r[k] != ids[i] {
      var k' := if k < i then k else k + 1;
      assert ids[k'] != ids[i];
    }
  }

  /** The application's database: the tables the core touches. */
  class Database {
    var portfolios: seq<Portfolio>
    var groups: seq<HoldingGroup>
    var holdings: seq<Holding>
    var snapshots: seq<PortfolioSnapshot>
    var users: seq<ApplicationUser>
    var nextGroupId: nat
    var nextHoldingId: nat
    var nextSnapshotId: nat

    /** Row ids are unique within their table and below the table's next identity value, which starts at 1. */
    predicate Valid()
      reads this
    {
      && 0 < nextGroupId && 0 < nextHoldingId && 0 < nextSnapshotId
      && IdsBelow(GroupIds(groups), nextGroupId)
      && IdsBelow(HoldingIds(holdings), nextHoldingId)
      && IdsBelow(SnapshotIds(snapshots), nextSnapshotId)
    }

    constructor (portfolios: seq<Portfolio>, users: seq<ApplicationUser>)
      ensures this.portfolios == portfolios && this.users == users
      ensures groups == [] && holdings == [] && snapshots == []
      ensures Valid()
    {
      this.portfolios := portfolios;
      this.users := users;
      groups := [];
      holdings := [];
      snapshots := [];
      nextGroupId := 1;
      nextHoldingId := 1;
      nextSnapshotId := 1;
    }
  }

  /** `Portfolios.Any(e => e.Id == id && e.UserId == userId)`. */
  predicate PortfolioExists(portfolios: seq<Portfolio>, id: nat, userId: string) {
    exists i :: 0 <= i < |portfolios| && portfolios[i].id == id && portfolios[i].userId == userId
  }

  /** FirstOrDefault over the portfolios for an id and an owner. */
  function FindPortfolio(portfolios: seq<Portfolio>, id: nat, userId: string): (r: Option<Portfolio>)
    ensures r.Some? <==> PortfolioExists(portfolios, id, userId)
    ensures r.Some? ==> r.value in portfolios && r.value.id == id && r.value.userId == userId
  {
    if portfolios == [] then None
    else if portfolios[0].id == id && portfolios[0].userId == userId then Some(portfolios[0])
    else FindPortfolio(portfolios[1..], id, userId)
  }

  /** FirstOrDefault over the users by id. */
  function FindUser(users: seq<ApplicationUser>, id: string): (r: Option<ApplicationUser>)
    ensures r.Some? <==> exists i :: 0 <= i < |users| && users[i].id == id
    ensures r.Some? ==> r.value in users && r.value.id == id
  {
    if users == [] then None
    else if users[0].id == id then Some(users[0])
    else FindUser(users[1..], id)
  }

  /** The group a holding's GroupId refers to, if that row exists (the `holding.Group` navigation). */
  function FindGroup(groups: seq<HoldingGroup>, id: nat): (r: Option<HoldingGroup>)
    ensures r.Some? <==> exists i :: 0 <= i < |groups| && groups[i].id == id
    ensures r.Some? ==> r.value in groups && r.value.id == id
  {
    if groups == [] then None
    else if groups[0].id == id then Some(groups[0])
    else FindGroup(groups[1..], id)
  }

  /** `holding.Group?.Name ?? "Uncategorized"`: the name of the holding's group, if that row exists. */
  function GroupNameOf(holding: Holding, groups: seq<HoldingGroup>): (r: string)
    ensures FindGroup(groups, holding.groupId).Some? ==> r == FindGroup(groups, holding.groupId).value.name
    ensures FindGroup(groups, holding.groupId).None? ==> r == UncategorizedName
  {
    match FindGroup(groups, holding.groupId)
    case Some(group) => group.name
    case None => UncategorizedName
  }

  /** `Where(h => h.PortfolioId == portfolioId)` over the holdings: one portfolio's rows, in table order. */
  function PortfolioHoldings(holdings: seq<Holding>, portfolioId: nat): (r: seq<Holding>)
    ensures forall h :: h in r <==> h in holdings && h.portfolioId == portfolioId
  {
    if holdings == [] then []
    else
      var rest := PortfolioHoldings(holdings[1..], portfolioId);
      assert holdings == [holdings[0]] + holdings[1..];
      if holdings[0].portfolioId == portfolioId then [holdings[0]] + rest else rest
  }
}
