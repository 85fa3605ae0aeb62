/**
 * Holding groups: HoldingGroupService's insert-if-absent of a user's default
 * "Uncategorized" group, and the rules of GroupsController over the groups and
 * holdings tables (list, create with a case-insensitive duplicate check,
 * rename except the default group, delete with the holdings moved to the
 * default group).
 */
module Groups {
  import opened Wrappers
  import opened Text
  import opened Time
  import opened Sorting
  import opened Store

  /** The non-success answers of the controller. */
  datatype GroupError =
    | Unauthorized  // no user id in the caller's token
    | NotFound      // no group with that id belongs to the caller
    | Conflict      // group_exists
    | Locked        // group_locked: the default group cannot be renamed or deleted
    | DuplicateName // the unique (UserId, Name) index refuses the save: internal_server_error

  /** GroupDto. */
  datatype GroupDto = GroupDto(id: nat, name: string, description: Option<string>, createdAtUtc: Instant)

  function ToGroupDto(g: HoldingGroup): GroupDto {
    GroupDto(g.id, g.name, g.description, g.createdAtUtc)
  }

  /** `description?.Trim()`. */
  function TrimOptional(description: Option<string>): Option<string> {
    match description
    case None => None
    case Some(text) => Some(Trim(text))
  }

  // ---------------------------------------------------------------- The default group

  predicate IsDefaultOf(g: HoldingGroup, userId: string) {
    g.userId == userId && g.name == UncategorizedName
  }

  /** FirstOrDefault(group => group.UserId == userId && group.Name == "Uncategorized"), as an index. */
  function FindDefault(groups: seq<HoldingGroup>, userId: string): (r: Option<nat>)
    ensures r.Some? <==> exists i :: 0 <= i < |groups| && IsDefaultOf(groups[i], userId)
    ensures r.Some? ==> r.value < |groups| && IsDefaultOf(groups[r.value], userId) &&
                        forall i :: 0 <= i < r.value ==> !IsDefaultOf(groups[i], userId)
  {
    if groups == [] then None
    else if IsDefaultOf(groups[0], userId) then Some(0)
    else
      match FindDefault(groups[1..], userId)
      case None => None
      case Some(i) => Some(i + 1)
  }

  /** The default group a missing one is created as. */
  function NewDefaultGroup(id: nat, userId: string, now: Instant): HoldingGroup {
    HoldingGroup(id, UncategorizedName, Some("Default group"), userId, now, now)
  }

  /** The groups table after EnsureUncategorizedGroupAsync: unchanged if the user has a default group, else one appended. */
  function WithDefaultGroup(groups: seq<HoldingGroup>, userId: string, id: nat, now: Instant): (r: seq<HoldingGroup>)
    ensures FindDefault(r, userId).Some?
    ensures groups <= r
  {
    if FindDefault(groups, userId).Some? then groups
    else
      var r := groups + [NewDefaultGroup(id, userId, now)];
      assert IsDefaultOf(r[|groups|], userId);
      r
  }

  /** The number of default groups a user has. */
  function CountDefault(groups: seq<HoldingGroup>, userId: string): nat {
    if groups == [] then 0
    else CountDefault(groups[..|groups| - 1], userId) + (if IsDefaultOf(groups[|groups| - 1], userId) then 1 else 0)
  }

  /** A user's count of default groups is 0 exactly when no row is one of them. */
  lemma {:induction false} CountDefaultNone(groups: seq<HoldingGroup>, userId: string)
    ensures CountDefault(groups, userId) == 0 <==> forall i :: 0 <= i < |groups| ==> !IsDefaultOf(groups[i], userId)
  {
    if groups != [] {
      var init := groups[..|groups| - 1];
      CountDefaultNone(init, userId);
      assert forall i :: 0 <= i < |init| ==> init[i] == groups[i];
    }
  }

  /** The count is 0 exactly when the lookup finds no default group. */
  lemma CountDefaultZero(groups: seq<HoldingGroup>, userId: string)
    ensures CountDefault(groups, userId) == 0 <==> FindDefault(groups, userId).None?
  {
    CountDefaultNone(groups, userId);
  }

  /**
   * After an ensure the user has a default group: exactly one if there was
   * none, and the same ones as before otherwise.
   */
  lemma WithDefaultGroupCount(groups: seq<HoldingGroup>, userId: string, id: nat, now: Instant)
    ensures var after := WithDefaultGroup(groups, userId, id, now);
      CountDefault(after, userId) == (if CountDefault(groups, userId) == 0 then 1 else CountDefault(groups, userId))
  {
    CountDefaultZero(groups, userId);
    var after := WithDefaultGroup(groups, userId, id, now);
    if FindDefault(groups, userId).None? {
      assert after[..|after| - 1] == groups;
      assert IsDefaultOf(after[|after| - 1], userId);
    }
  }

  /** A second ensure changes nothing: the default group the first one left is found. */
  lemma WithDefaultGroupIdempotent(groups: seq<HoldingGroup>, userId: string, id: nat, id2: nat, now: Instant, later: Instant)
    ensures var once := WithDefaultGroup(groups, userId, id, now);
      WithDefaultGroup(once, userId, id2, later) == once
  {
    WithDefaultGroupCount(groups, userId, id, now);
  }

  /** The group id counter after an ensure: advanced by one exactly when a default group is inserted. */
  function EnsuredNextId(groups: seq<HoldingGroup>, userId: string, nextId: nat): nat {
    if FindDefault(groups, userId).None? then nextId + 1 else nextId
  }

  /**
   * EnsureUncategorizedGroupAsync at time `now`: the caller's first default
   * group, inserted with the next id when there is none.
   */
  method EnsureUncategorizedGroup(db: Database, userId: string, now: Instant) returns (g: HoldingGroup)
    requires db.Valid()
    modifies db
    ensures db.Valid()
    ensures IsDefaultOf(g, userId) && g in db.groups
    ensures db.groups == WithDefaultGroup(old(db.groups), userId, old(db.nextGroupId), now)
    ensures db.nextGroupId == EnsuredNextId(old(db.groups), userId, old(db.nextGroupId))
    ensures FindDefault(old(db.groups), userId).Some? ==>
      g == old(db.groups)[FindDefault(old(db.groups), userId).value] && unchanged(db)
    ensures FindDefault(old(db.groups), userId).None? ==>
      g == NewDefaultGroup(old(db.nextGroupId), userId, now) && db.nextGroupId == old(db.nextGroupId) + 1
    ensures db.portfolios == old(db.portfolios) && db.holdings == old(db.holdings) && db.snapshots == old(db.snapshots)
    ensures db.users == old(db.users) && db.nextHoldingId == old(db.nextHoldingId)
    ensures db.nextSnapshotId == old(db.nextSnapshotId)
  {
    var existing := FindDefault(db.groups, userId);
    if existing.Some? {
      return db.groups[existing.value];
    }
    g := NewDefaultGroup(db.nextGroupId, userId, now);
    assert GroupIds(db.groups + [g]) == GroupIds(db.groups) + [g.id];
    IdsBelowAppend(GroupIds(db.groups), db.nextGroupId);
    db.groups := db.groups + [g];
    db.nextGroupId := db.nextGroupId + 1;
  }

  // ---------------------------------------------------------------- GetGroups

  /** The caller's groups, in table order. */
  function OwnedGroups(groups: seq<HoldingGroup>, userId: string): (r: seq<HoldingGroup>)
    ensures forall g :: g in r <==> g in groups && g.userId == userId
  {
    if groups == [] then []
    else
      var rest := OwnedGroups(groups[1..], userId);
      assert groups == [groups[0]] + groups[1..];
      if groups[0].userId == userId then [groups[0]] + rest else rest
  }

  function ToGroupDtos(groups: seq<HoldingGroup>): (r: seq<GroupDto>)
    ensures |r| == |groups| && forall i :: 0 <= i < |groups| ==> r[i] == ToGroupDto(groups[i])
  {
    seq(|groups|, i requires 0 <= i < |groups| => ToGroupDto(groups[i]))
  }

  /** OrderBy(group => group.Name). */
  function NameLe(a: GroupDto, b: GroupDto): bool {
    StringLe(a.name, b.name)
  }

  lemma NameLeIsTotalPreorder()
    ensures TotalPreorder(NameLe)
  {
    forall a: GroupDto, b: GroupDto ensures NameLe(a, b) || NameLe(b, a) {
      StringLeTotal(a.name, b.name);
    }
    forall a: GroupDto, b: GroupDto, c: GroupDto | NameLe(a, b) && NameLe(b, c) ensures NameLe(a, c) {
      StringLeTransitive(a.name, b.name, c.name);
    }
  }

  /**
   * GetGroups at time `now`: the default group is ensured first, then the
   * caller's groups are listed by name; the list always holds a default group.
   */
  method GetGroups(db: Database, userId: Option<string>, now: Instant) returns (r: Result<seq<GroupDto>, GroupError>)
    requires db.Valid()
    modifies db
    ensures db.Valid()
    ensures IsNullOrWhiteSpace(userId) ==> r == Failure(Unauthorized) && unchanged(db)
    ensures !IsNullOrWhiteSpace(userId) ==>
      && db.groups == WithDefaultGroup(old(db.groups), userId.value, old(db.nextGroupId), now)
      && db.nextGroupId == EnsuredNextId(old(db.groups), userId.value, old(db.nextGroupId))
      && db.holdings == old(db.holdings) && db.portfolios == old(db.portfolios)
      && db.snapshots == old(db.snapshots) && db.users == old(db.users)
      && db.nextHoldingId == old(db.nextHoldingId) && db.nextSnapshotId == old(db.nextSnapshotId)
      && r.Success?
      && multiset(r.value) == multiset(ToGroupDtos(OwnedGroups(db.groups, userId.value)))
      && (forall i, j :: 0 <= i < j < |r.value| ==> StringLe(r.value[i].name, r.value[j].name))
      && (exists i :: 0 <= i < |r.value| && r.value[i].name == UncategorizedName)
  {
    if IsNullOrWhiteSpace(userId) {
      return Failure(Unauthorized);
    }
    var uid := userId.value;
    var defaultGroup := EnsureUncategorizedGroup(db, uid, now);
    var dtos := ToGroupDtos(OwnedGroups(db.groups, uid));
    NameLeIsTotalPreorder();
    var sorted := SortBy(dtos, NameLe);
    var k :| 0 <= k < |OwnedGroups(db.groups, uid)| && OwnedGroups(db.groups, uid)[k] == defaultGroup;
    assert dtos[k] in multiset(sorted);
    return Success(sorted);
  }

  // ---------------------------------------------------------------- CreateGroup

  /** AnyAsync(group => group.UserId == userId && group.Name.ToLower() == name.ToLower()). */
  predicate NameTaken(groups: seq<HoldingGroup>, userId: string, name: string) {
    exists i :: 0 <= i < |groups| && groups[i].userId == userId && ToLower(groups[i].name) == ToLower(name)
  }

  /** No user has two groups whose names differ only in case. */
  ghost predicate NamesDistinctIgnoreCase(groups: seq<HoldingGroup>) {
    forall i, j :: 0 <= i < j < |groups| && groups[i].userId == groups[j].userId ==>
      ToLower(groups[i].name) != ToLower(groups[j].name)
  }

  /**
   * CreateGroup at time `now`: the trimmed name is rejected when the caller
   * already has a group of that name in any casing; otherwise one group is
   * appended with the next id and returned.
   */
  method CreateGroup(db: Database, userId: Option<string>, name: string, description: Option<string>, now: Instant)
    returns (r: Result<GroupDto, GroupError>)
    requires db.Valid()
    modifies db
    ensures db.Valid()
    ensures IsNullOrWhiteSpace(userId) ==> r == Failure(Unauthorized) && unchanged(db)
    ensures !IsNullOrWhiteSpace(userId) && NameTaken(old(db.groups), userId.value, Trim(name)) ==>
      r == Failure(Conflict) && unchanged(db)
    ensures !IsNullOrWhiteSpace(userId) && !NameTaken(old(db.groups), userId.value, Trim(name)) ==>
      var g := HoldingGroup(old(db.nextGroupId), Trim(name), TrimOptional(description), userId.value, now, now);
      && db.groups == old(db.groups) + [g]
      && r == Success(ToGroupDto(g))
      && db.nextGroupId == old(db.nextGroupId) + 1
      && db.holdings == old(db.holdings) && db.portfolios == old(db.portfolios)
      && db.snapshots == old(db.snapshots) && db.users == old(db.users)
      && db.nextHoldingId == old(db.nextHoldingId) && db.nextSnapshotId == old(db.nextSnapshotId)
    ensures NamesDistinctIgnoreCase(old(db.groups)) ==> NamesDistinctIgnoreCase(db.groups)
  {
    if IsNullOrWhiteSpace(userId) {
      return Failure(Unauthorized);
    }
    var uid := userId.value;
    var normalizedName := Trim(name);
    if NameTaken(db.groups, uid, normalizedName) {
      return Failure(Conflict);
    }
    var g := HoldingGroup(db.nextGroupId, normalizedName, TrimOptional(description), uid, now, now);
    assert GroupIds(db.groups + [g]) == GroupIds(db.groups) + [g.id];
    IdsBelowAppend(GroupIds(db.groups), db.nextGroupId);
    db.groups := db.groups + [g];
    db.nextGroupId := db.nextGroupId + 1;
    return Success(ToGroupDto(g));
  }

  // ---------------------------------------------------------------- UpdateGroup and DeleteGroup

  /** FirstOrDefault(item => item.Id == id && item.UserId == userId), as an index. */
  function FindOwnedGroup(groups: seq<HoldingGroup>, id: nat, userId: string): (r: Option<nat>)
    ensures r.Some? <==> exists i :: 0 <= i < |groups| && groups[i].id == id && groups[i].userId == userId
    ensures r.Some? ==> r.value < |groups| && groups[r.value].id == id && groups[r.value].userId == userId
  {
    if groups == [] then None
    else if groups[0].id == id && groups[0].userId == userId then Some(0)
    else
      match FindOwnedGroup(groups[1..], id, userId)
      case None => None
      case Some(i) => Some(i + 1)
  }

  /**
   * Another of the user's groups (not row `i`) already has the name. The
   * unique (UserId, Name) index compares under the database's case-insensitive
   * collation, so names that differ only in case collide.
   */
  predicate NameTakenByOther(groups: seq<HoldingGroup>, userId: string, i: nat, name: string) {
    exists k :: 0 <= k < |groups| && k != i && groups[k].userId == userId && ToLower(groups[k].name) == ToLower(name)
  }

  /** Renaming a row to a name none of its owner's other groups has keeps names distinct ignoring case. */
  lemma RenameKeepsNamesDistinct(groups: seq<HoldingGroup>, i: nat, updated: HoldingGroup)
    requires i < |groups| && NamesDistinctIgnoreCase(groups)
    requires updated.userId == groups[i].userId && !NameTakenByOther(groups, updated.userId, i, updated.name)
    ensures NamesDistinctIgnoreCase(groups[i := updated])
  {
    var r := groups[i := updated];
    forall a, b | 0 <= a < b < |r| && r[a].userId == r[b].userId ensures ToLower(r[a].name) != ToLower(r[b].name) {
      if a == i {
        assert r[b] == groups[b];
      } else if b == i {
        assert r[a] == groups[a];
      } else {
        assert r[a] == groups[a] && r[b] == groups[b];
      }
    }
  }

  /**
   * UpdateGroup at time `now`: a group the caller does not own is not found,
   * the group named exactly "Uncategorized" is locked, a name another of the
   * caller's groups already has is refused by the unique index when saving,
   * and otherwise the name and description are replaced by their trimmed
   * values.
   */
  method UpdateGroup(db: Database, userId: Option<string>, id: nat, name: string, description: Option<string>,
                     now: Instant)
    returns (r: Result<(), GroupError>)
    requires db.Valid()
    modifies db
    ensures db.Valid()
    ensures IsNullOrWhiteSpace(userId) ==> r == Failure(Unauthorized) && unchanged(db)
    ensures !IsNullOrWhiteSpace(userId) && FindOwnedGroup(old(db.groups), id, userId.value).None? ==>
      r == Failure(NotFound) && unchanged(db)
    ensures !IsNullOrWhiteSpace(userId) && FindOwnedGroup(old(db.groups), id, userId.value).Some? ==>
      var i := FindOwnedGroup(old(db.groups), id, userId.value).value;
      var g := old(db.groups)[i];
      && (g.name == UncategorizedName ==> r == Failure(Locked) && unchanged(db))
      && (g.name != UncategorizedName && NameTakenByOther(old(db.groups), userId.value, i, Trim(name)) ==>
            r == Failure(DuplicateName) && unchanged(db))
      && (g.name != UncategorizedName && !NameTakenByOther(old(db.groups), userId.value, i, Trim(name)) ==>
            && r == Success(())
            && db.groups == old(db.groups)[i := g.(name := Trim(name), description := TrimOptional(description),
                                                   updatedAtUtc := now)]
            && db.holdings == old(db.holdings) && db.portfolios == old(db.portfolios)
            && db.snapshots == old(db.snapshots) && db.users == old(db.users)
            && db.nextGroupId == old(db.nextGroupId) && db.nextHoldingId == old(db.nextHoldingId)
            && db.nextSnapshotId == old(db.nextSnapshotId))
    ensures NamesDistinctIgnoreCase(old(db.groups)) ==> NamesDistinctIgnoreCase(db.groups)
  {
    if IsNullOrWhiteSpace(userId) {
      return Failure(Unauthorized);
    }
    var found := FindOwnedGroup(db.groups, id, userId.value);
    if found.None? {
      return Failure(NotFound);
    }
    var i := found.value;
    var g := db.groups[i];
    if g.name == UncategorizedName {
      return Failure(Locked);
    }
    if NameTakenByOther(db.groups, userId.value, i, Trim(name)) {
      return Failure(DuplicateName);
    }
    var updated := g.(name := Trim(name), description := TrimOptional(description), updatedAtUtc := now);
    assert GroupIds(db.groups[i := updated]) == GroupIds(db.groups);
    if NamesDistinctIgnoreCase(db.groups) {
      RenameKeepsNamesDistinct(db.groups, i, updated);
    }
    db.groups := db.groups[i := updated];
    return Success(());
  }

  /** The holdings after every reference to group `from` is pointed at group `to`. */
  function Reassigned(holdings: seq<Holding>, from: nat, to: nat): (r: seq<Holding>)
    ensures |r| == |holdings|
    ensures forall i :: 0 <= i < |holdings| && holdings[i].groupId == from ==> r[i] == holdings[i].(groupId := to)
    ensures forall i :: 0 <= i < |holdings| && holdings[i].groupId != from ==> r[i] == holdings[i]
    ensures from != to ==> forall i :: 0 <= i < |r| ==> r[i].groupId != from
  {
    seq(|holdings|, i requires 0 <= i < |holdings| =>
      if holdings[i].groupId == from then holdings[i].(groupId := to) else holdings[i])
  }

  /** The foreach of DeleteGroup: every holding of group `from` is put in group `to`. */
  method MoveHoldings(db: Database, from: nat, to: nat)
    requires db.Valid()
    modifies db
    ensures db.Valid()
    ensures db.holdings == Reassigned(old(db.holdings), from, to)
    ensures db.groups == old(db.groups) && db.portfolios == old(db.portfolios) && db.snapshots == old(db.snapshots)
    ensures db.users == old(db.users) && db.nextGroupId == old(db.nextGroupId)
    ensures db.nextHoldingId == old(db.nextHoldingId) && db.nextSnapshotId == old(db.nextSnapshotId)
  {
    ghost var before := db.holdings;
    for k := 0 to |db.holdings|
      invariant db.Valid()
      invariant |db.holdings| == |before|
      invariant forall j :: 0 <= j < k ==> db.holdings[j] == Reassigned(before, from, to)[j]
      invariant forall j :: k <= j < |before| ==> db.holdings[j] == before[j]
      invariant db.groups == old(db.groups) && db.portfolios == old(db.portfolios) && db.snapshots == old(db.snapshots)
      invariant db.users == old(db.users) && db.nextGroupId == old(db.nextGroupId)
      invariant db.nextHoldingId == old(db.nextHoldingId) && db.nextSnapshotId == old(db.nextSnapshotId)
    {
      if db.holdings[k].groupId == from {
        var moved := db.holdings[k].(groupId := to);
        assert HoldingIds(db.holdings[k := moved]) == HoldingIds(db.holdings);
        db.holdings := db.holdings[k := moved];
      }
    }
  }

  /** `Remove(group)`: the i-th group row leaves the table, and no row keeps its id. */
  method RemoveGroup(db: Database, i: nat)
    requires db.Valid() && i < |db.groups|
    modifies db
    ensures db.Valid()
    ensures db.groups == RemoveAt(old(db.groups), i)
    ensures forall g :: g in db.groups ==> g.id != old(db.groups)[i].id
    ensures db.holdings == old(db.holdings) && db.portfolios == old(db.portfolios) && db.snapshots == old(db.snapshots)
    ensures db.users == old(db.users) && db.nextGroupId == old(db.nextGroupId)
    ensures db.nextHoldingId == old(db.nextHoldingId) && db.nextSnapshotId == old(db.nextSnapshotId)
  {
    var id := db.groups[i].id;
    assert GroupIds(RemoveAt(db.groups, i)) == RemoveAt(GroupIds(db.groups), i);
    IdsBelowRemove(GroupIds(db.groups), i, db.nextGroupId);
    db.groups := RemoveAt(db.groups, i);
    assert forall k :: 0 <= k < |db.groups| ==> db.groups[k].id == GroupIds(db.groups)[k] != id;
  }

  /**
   * DeleteGroup at time `now`: a group the caller does not own is not found;
   * otherwise the default group is ensured, the default group itself is
   * locked, and any other group is removed after its holdings are moved to
   * the default group.
   */
  method DeleteGroup(db: Database, userId: Option<string>, id: nat, now: Instant) returns (r: Result<(), GroupError>)
    requires db.Valid()
    modifies db
    ensures db.Valid()
    ensures IsNullOrWhiteSpace(userId) ==> r == Failure(Unauthorized) && unchanged(db)
    ensures !IsNullOrWhiteSpace(userId) && FindOwnedGroup(old(db.groups), id, userId.value).None? ==>
      r == Failure(NotFound) && unchanged(db)
    ensures !IsNullOrWhiteSpace(userId) && FindOwnedGroup(old(db.groups), id, userId.value).Some? ==>
      var ensured := WithDefaultGroup(old(db.groups), userId.value, old(db.nextGroupId), now);
      var defaultGroup := ensured[FindDefault(ensured, userId.value).value];
      var i := FindOwnedGroup(old(db.groups), id, userId.value).value;
      && (defaultGroup.id == id ==> r == Failure(Locked) && db.groups == ensured && db.holdings == old(db.holdings))
      && (defaultGroup.id != id ==>
            && r == Success(())
            && db.groups == RemoveAt(ensured, i)
            && (forall g :: g in db.groups ==> g.id != id)
            && db.holdings == Reassigned(old(db.holdings), id, defaultGroup.id))
    ensures !IsNullOrWhiteSpace(userId) && FindOwnedGroup(old(db.groups), id, userId.value).Some? ==>
      db.nextGroupId == EnsuredNextId(old(db.groups), userId.value, old(db.nextGroupId))
    ensures db.portfolios == old(db.portfolios) && db.snapshots == old(db.snapshots) && db.users == old(db.users)
    ensures db.nextHoldingId == old(db.nextHoldingId) && db.nextSnapshotId == old(db.nextSnapshotId)
  {
    if IsNullOrWhiteSpace(userId) {
      return Failure(Unauthorized);
    }
    var uid := userId.value;
    var found := FindOwnedGroup(db.groups, id, uid);
    if found.None? {
      return Failure(NotFound);
    }
    var i := found.value;
    var defaultGroup := EnsureUncategorizedGroup(db, uid, now);
    ghost var ensured := db.groups;
    assert defaultGroup == ensured[FindDefault(ensured, uid).value] by {
      if FindDefault(old(db.groups), uid).None? {
        assert ensured == old(db.groups) + [defaultGroup];
      }
    }
    assert ensured[i] == old(db.groups)[i];
    if defaultGroup.id == id {
      return Failure(Locked);
    }
    MoveHoldings(db, id, defaultGroup.id);
    RemoveGroup(db, i);
    return Success(());
  }
}
