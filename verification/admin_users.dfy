/**
 * AdminUsersController: the administrator's paged, searchable user list and
 * the edits of a user's profile, status and roles. The identity store's
 * validation and persistence outcomes are inputs (`updateSucceeds`,
 * `removeSucceeds`, `addSucceeds`); the users table is the database's.
 */
module AdminUsers {
  import opened Wrappers
  import opened Text
  import opened Sorting
  import opened Store

  /** The non-success answers of the controller. */
  datatype AdminError =
    | UserNotFound        // user_not_found
    | EmailAlreadyExists  // email_already_exists
    | UpdateFailed        // update_failed: the identity store rejected the update
    | RolesRequired       // roles_required
    | InvalidRole(role: string)  // invalid_role, naming the first unsupported role
    | RolesUpdateFailed   // roles_update_failed

  /** AdminUserDto. */
  datatype AdminUserDto = AdminUserDto(id: string, email: string, displayName: string, isActive: bool,
                                       baseCurrency: string, roles: seq<string>)

  /** AdminUserListResponse. */
  datatype AdminUserListResponse = AdminUserListResponse(page: int, pageSize: int, totalCount: nat,
                                                         items: seq<AdminUserDto>)

  /** UpdateUserRequest. */
  datatype UpdateUserRequest = UpdateUserRequest(email: string, displayName: string, baseCurrency: string)

  /** UserProfileMapper.ToAdminUserDto: a missing email or user name becomes the empty string. */
  function ToAdminUserDto(user: ApplicationUser): (r: AdminUserDto)
    ensures r.id == user.id && r.isActive == user.isActive && r.baseCurrency == user.baseCurrency
    ensures r.roles == user.roles
    ensures r.email == user.email.GetOr("") && r.displayName == user.userName.GetOr("")
  {
    AdminUserDto(user.id, user.email.GetOr(""), user.userName.GetOr(""), user.isActive, user.baseCurrency, user.roles)
  }

  // ---------------------------------------------------------------- Paging

  const MaxPageSize: int := 100
  const Int32Max: int := 0x7FFF_FFFF
  const TwoTo32: int := 0x1_0000_0000

  predicate IsInt32(x: int) {
    -0x8000_0000 <= x <= Int32Max
  }

  /** Math.Max(page, 1). */
  function ClampPage(page: int): (r: int)
    ensures 1 <= r
    ensures page >= 1 ==> r == page
    ensures page < 1 ==> r == 1
  {
    if page < 1 then 1 else page
  }

  /** Math.Clamp(pageSize, 1, 100). */
  function ClampPageSize(pageSize: int): (r: int)
    ensures 1 <= r <= MaxPageSize
    ensures 1 <= pageSize <= MaxPageSize ==> r == pageSize
    ensures pageSize < 1 ==> r == 1
    ensures pageSize > MaxPageSize ==> r == MaxPageSize
  {
    if pageSize < 1 then 1 else if pageSize > MaxPageSize then MaxPageSize else pageSize
  }

  /** Unchecked 32-bit `int` arithmetic: the value reduced into the two's-complement range. */
  function Wrap32(x: int): (r: int)
    ensures IsInt32(r)
    ensures IsInt32(x) ==> r == x
    ensures (x - r) % TwoTo32 == 0
  {
    var m := x % TwoTo32;
    assert x == (x / TwoTo32) * TwoTo32 + m;
    if m <= Int32Max then m else m - TwoTo32
  }

  /** `(page - 1) * pageSize` as GetUsers computes it: in unchecked `int` arithmetic. */
  function SkipAsWritten(page: int, pageSize: int): int {
    Wrap32(Wrap32(page - 1) * pageSize)
  }

  /** The number of items on the pages before `page`, in unbounded arithmetic. */
  function Skip(page: int, pageSize: int): nat
    requires 1 <= page && 1 <= pageSize
  {
    (page - 1) * pageSize
  }

  /**
   * The offset as written goes negative for a page number the clamp lets
   * through: page 21474838 of 100 items should skip 2147483700 items, beyond
   * `int.MaxValue`, and the product wraps round to -2147483596, an OFFSET
   * the database refuses.
   */
  lemma SkipAsWrittenOverflows()
    ensures IsInt32(21474838) && ClampPage(21474838) == 21474838 && ClampPageSize(100) == 100
    ensures Skip(21474838, 100) == 2147483700 > Int32Max
    ensures SkipAsWritten(21474838, 100) == -2147483596 < 0
  {
    assert Wrap32(21474837) == 21474837;
    assert 21474837 * 100 == 2147483700;
    assert 2147483700 % TwoTo32 == 2147483700;
  }

  /** Where the true product fits in an `int`, the offset as written is the intended one. */
  lemma SkipAsWrittenAgrees(page: int, pageSize: int)
    requires 1 <= page && 1 <= pageSize && IsInt32(page)
    requires Skip(page, pageSize) <= Int32Max
    ensures SkipAsWritten(page, pageSize) == Skip(page, pageSize)
  {
    assert Wrap32(page - 1) == page - 1;
  }

  function Min(a: int, b: int): int {
    if a <= b then a else b
  }

  /** `Skip((page - 1) * pageSize).Take(pageSize)`, with the offset computed without overflow. */
  function PageOf<T>(s: seq<T>, page: int, pageSize: int): (r: seq<T>)
    requires 1 <= page && 1 <= pageSize
    ensures |r| <= pageSize
    ensures forall k :: 0 <= k < |r| ==> Skip(page, pageSize) + k < |s| && r[k] == s[Skip(page, pageSize) + k]
    ensures |r| == Min(pageSize, |s| - Min(Skip(page, pageSize), |s|))
  {
    var skip := Min(Skip(page, pageSize), |s|);
    s[skip..Min(skip + pageSize, |s|)]
  }

  /** Pages 1 to n, one after the other. */
  function Pages<T>(s: seq<T>, n: nat, pageSize: int): seq<T>
    requires 1 <= pageSize
  {
    if n == 0 then [] else Pages(s, n - 1, pageSize) + PageOf(s, n, pageSize)
  }

  /** Page n is the slice between the first (n - 1) * pageSize and the first n * pageSize items. */
  lemma PageSlice<T>(s: seq<T>, n: nat, pageSize: int)
    requires 1 <= n && 1 <= pageSize
    ensures 0 <= (n - 1) * pageSize <= n * pageSize
    ensures PageOf(s, n, pageSize) == s[Min((n - 1) * pageSize, |s|)..Min(n * pageSize, |s|)]
  {
    assert (n - 1) * pageSize + pageSize == n * pageSize;
  }

  /** The pages cut the list into consecutive runs: the first n pages are its first n * pageSize items. */
  lemma {:induction false} PagesPartition<T>(s: seq<T>, n: nat, pageSize: int)
    requires 1 <= pageSize
    ensures Pages(s, n, pageSize) == s[..Min(n * pageSize, |s|)]
  {
    if n > 0 {
      PagesPartition(s, n - 1, pageSize);
      PageSlice(s, n, pageSize);
      var a := Min((n - 1) * pageSize, |s|);
      var b := Min(n * pageSize, |s|);
      assert s[..a] + s[a..b] == s[..b];
    }
  }

  // ---------------------------------------------------------------- Searching and ordering

  /** The search filter: the email or the user name contains the search text (ordinal). */
  predicate MatchesSearch(user: ApplicationUser, search: string) {
    || (user.email.Some? && Contains(user.email.value, search))
    || (user.userName.Some? && Contains(user.userName.value, search))
  }

  function Where(users: seq<ApplicationUser>, search: string): (r: seq<ApplicationUser>)
    ensures |r| <= |users|
    ensures forall u :: u in r <==> u in users && MatchesSearch(u, search)
  {
    if users == [] then []
    else
      var rest := Where(users[1..], search);
      assert users == [users[0]] + users[1..];
      if MatchesSearch(users[0], search) then [users[0]] + rest else rest
  }

  /** The users a search keeps: all of them when the search is blank. */
  function FilterUsers(users: seq<ApplicationUser>, search: Option<string>): (r: seq<ApplicationUser>)
    ensures IsNullOrWhiteSpace(search) ==> r == users
    ensures !IsNullOrWhiteSpace(search) ==> forall u :: u in r <==> u in users && MatchesSearch(u, search.value)
  {
    if IsNullOrWhiteSpace(search) then users else Where(users, search.value)
  }

  /** OrderBy(u => u.Email): users without an email first (as the database sorts NULL), then by email. */
  function EmailLe(a: ApplicationUser, b: ApplicationUser): bool {
    a.email.None? || (b.email.Some? && StringLe(a.email.value, b.email.value))
  }

  lemma EmailLeIsTotalPreorder()
    ensures TotalPreorder(EmailLe)
  {
    forall a: ApplicationUser, b: ApplicationUser ensures EmailLe(a, b) || EmailLe(b, a) {
      if a.email.Some? && b.email.Some? {
        StringLeTotal(a.email.value, b.email.value);
      }
    }
    forall a: ApplicationUser, b: ApplicationUser, c: ApplicationUser | EmailLe(a, b) && EmailLe(b, c)
      ensures EmailLe(a, c)
    {
      if a.email.Some? {
        StringLeTransitive(a.email.value, b.email.value, c.email.value);
      }
    }
  }

  /** The filtered users in email order. */
  function Ordered(users: seq<ApplicationUser>, search: Option<string>): (r: seq<ApplicationUser>)
    ensures SortedBy(r, EmailLe)
    ensures multiset(r) == multiset(FilterUsers(users, search))
  {
    EmailLeIsTotalPreorder();
    SortBy(FilterUsers(users, search), EmailLe)
  }

  function ToDtos(users: seq<ApplicationUser>): (r: seq<AdminUserDto>)
    ensures |r| == |users|
    ensures forall k :: 0 <= k < |users| ==> r[k] == ToAdminUserDto(users[k])
  {
    seq(|users|, k requires 0 <= k < |users| => ToAdminUserDto(users[k]))
  }

  /**
   * GetUsers: the clamped page and page size, the number of users the
   * search keeps, and that page of them in email order, each with its roles.
   */
  method GetUsers(db: Database, page: int, pageSize: int, search: Option<string>) returns (r: AdminUserListResponse)
    ensures r.page == ClampPage(page) && r.pageSize == ClampPageSize(pageSize)
    ensures r.totalCount == |FilterUsers(db.users, search)|
    ensures |r.items| <= r.pageSize
    ensures r.items == ToDtos(PageOf(Ordered(db.users, search), r.page, r.pageSize))
  {
    var p := ClampPage(page);
    var size := ClampPageSize(pageSize);
    var totalCount := |FilterUsers(db.users, search)|;
    var users := PageOf(Ordered(db.users, search), p, size);
    var items: seq<AdminUserDto> := [];
    for k := 0 to |users|
      invariant |items| == k
      invariant forall j :: 0 <= j < k ==> items[j] == ToAdminUserDto(users[j])
    {
      items := items + [ToAdminUserDto(users[k])];
    }
    return AdminUserListResponse(p, size, totalCount, items);
  }

  // ---------------------------------------------------------------- One user

  /** FindByIdAsync, as an index into the users table. */
  function FindUserIndex(users: seq<ApplicationUser>, id: string): (r: Option<nat>)
    ensures r.None? <==> forall i :: 0 <= i < |users| ==> users[i].id != id
    ensures r.Some? ==> r.value < |users| && users[r.value].id == id
    ensures r.Some? ==> forall j :: 0 <= j < r.value ==> users[j].id != id
  {
    if users == [] then None
    else if users[0].id == id then Some(0)
    else
      match FindUserIndex(users[1..], id)
      case None => None
      case Some(i) => Some(i + 1)
  }

  /** FindByIdAsync looks at the ids only: tables with the same ids give the same answer. */
  lemma {:induction false} FindUserIndexByIds(a: seq<ApplicationUser>, b: seq<ApplicationUser>, id: string)
    requires |a| == |b| && forall j :: 0 <= j < |a| ==> a[j].id == b[j].id
    ensures FindUserIndex(a, id) == FindUserIndex(b, id)
  {
    if a != [] && a[0].id != id {
      FindUserIndexByIds(a[1..], b[1..], id);
    }
  }

  /** GetUser: the user with that id, or UserNotFound. */
  function GetUser(users: seq<ApplicationUser>, id: string): (r: Result<AdminUserDto, AdminError>)
    ensures r.Failure? <==> forall i :: 0 <= i < |users| ==> users[i].id != id
    ensures r.Failure? ==> r.error == UserNotFound
    ensures r.Success? ==> exists i :: 0 <= i < |users| && users[i].id == id && r.value == ToAdminUserDto(users[i])
  {
    match FindUserIndex(users, id)
    case None => Failure(UserNotFound)
    case Some(i) => Success(ToAdminUserDto(users[i]))
  }

  predicate UserIdsDistinct(users: seq<ApplicationUser>) {
    forall i, j :: 0 <= i < j < |users| ==> users[i].id != users[j].id
  }

  /** No two users have emails that differ only in case (the identity store requires unique emails). */
  predicate EmailsDistinctIgnoreCase(users: seq<ApplicationUser>) {
    forall i, j :: 0 <= i < j < |users| && users[i].email.Some? && users[j].email.Some? ==>
      !EqualsIgnoreCase(users[i].email.value, users[j].email.value)
  }

  /** `string.Equals(user.Email, email, OrdinalIgnoreCase)`, where a null email equals no string. */
  predicate SameEmail(current: Option<string>, email: string) {
    current.Some? && EqualsIgnoreCase(current.value, email)
  }

  /** FindByEmailAsync(email) finds a user other than `id`: emails are looked up by their upper-cased form. */
  predicate EmailTaken(users: seq<ApplicationUser>, email: string, id: string) {
    exists i :: 0 <= i < |users| && users[i].id != id && SameEmail(users[i].email, email)
  }

  /** The user after UpdateUser's edits: a new email only if it differs in more than case, the display name, the upper-cased base currency. */
  function Edited(user: ApplicationUser, request: UpdateUserRequest): ApplicationUser {
    user.(email := if SameEmail(user.email, request.email) then user.email else Some(request.email),
          userName := Some(request.displayName),
          baseCurrency := ToUpper(request.baseCurrency))
  }

  /**
   * UpdateUser: an unknown user is not found; an email that differs (in more
   * than case) from the user's and belongs to another user is a conflict;
   * otherwise the edited user is stored if the identity store accepts it.
   * Emails stay unique.
   */
  method UpdateUser(db: Database, id: string, request: UpdateUserRequest, updateSucceeds: bool)
    returns (r: Result<AdminUserDto, AdminError>)
    modifies db
    ensures FindUserIndex(old(db.users), id).None? ==> r == Failure(UserNotFound) && unchanged(db)
    ensures FindUserIndex(old(db.users), id).Some? ==>
      var i := FindUserIndex(old(db.users), id).value;
      var user := old(db.users)[i];
      var conflict := !SameEmail(user.email, request.email) && EmailTaken(old(db.users), request.email, user.id);
      && (conflict ==> r == Failure(EmailAlreadyExists) && unchanged(db))
      && (!conflict && !updateSucceeds ==> r == Failure(UpdateFailed) && unchanged(db))
      && (!conflict && updateSucceeds ==>
            && db.users == old(db.users)[i := Edited(user, request)]
            && r == Success(ToAdminUserDto(Edited(user, request))))
    ensures UserIdsDistinct(old(db.users)) && EmailsDistinctIgnoreCase(old(db.users)) ==>
      UserIdsDistinct(db.users) && EmailsDistinctIgnoreCase(db.users)
    ensures db.portfolios == old(db.portfolios) && db.groups == old(db.groups) && db.holdings == old(db.holdings)
    ensures db.snapshots == old(db.snapshots)
    ensures db.nextGroupId == old(db.nextGroupId) && db.nextHoldingId == old(db.nextHoldingId) && db.nextSnapshotId == old(db.nextSnapshotId)
    ensures old(db.Valid()) ==> db.Valid()
  {
    var found := FindUserIndex(db.users, id);
    if found.None? {
      return Failure(UserNotFound);
    }
    var i := found.value;
    var user := db.users[i];
    if !SameEmail(user.email, request.email) && EmailTaken(db.users, request.email, user.id) {
      return Failure(EmailAlreadyExists);
    }
    if !updateSucceeds {
      return Failure(UpdateFailed);
    }
    var edited := Edited(user, request);
    EditedKeepsEmailsDistinct(db.users, i, request);
    db.users := db.users[i := edited];
    return Success(ToAdminUserDto(edited));
  }

  /** An edit that passed the conflict check keeps ids and emails unique. */
  lemma EditedKeepsEmailsDistinct(users: seq<ApplicationUser>, i: nat, request: UpdateUserRequest)
    requires i < |users|
    requires SameEmail(users[i].email, request.email) || !EmailTaken(users, request.email, users[i].id)
    ensures var after := users[i := Edited(users[i], request)];
      UserIdsDistinct(users) && EmailsDistinctIgnoreCase(users) ==> UserIdsDistinct(after) && EmailsDistinctIgnoreCase(after)
  {
    var after := users[i := Edited(users[i], request)];
    if UserIdsDistinct(users) && EmailsDistinctIgnoreCase(users) && !SameEmail(users[i].email, request.email) {
      forall j | 0 <= j < |users| && j != i && users[j].email.Some?
        ensures !EqualsIgnoreCase(users[j].email.value, request.email)
      {
        assert users[j].id != users[i].id;
        assert !SameEmail(users[j].email, request.email);
      }
    }
  }

  /** UpdateUserStatus: the user's IsActive flag is set, if the identity store accepts it. */
  method UpdateUserStatus(db: Database, id: string, isActive: bool, updateSucceeds: bool)
    returns (r: Result<AdminUserDto, AdminError>)
    modifies db
    ensures FindUserIndex(old(db.users), id).None? ==> r == Failure(UserNotFound) && unchanged(db)
    ensures FindUserIndex(old(db.users), id).Some? && !updateSucceeds ==> r == Failure(UpdateFailed) && unchanged(db)
    ensures FindUserIndex(old(db.users), id).Some? && updateSucceeds ==>
      var i := FindUserIndex(old(db.users), id).value;
      && db.users == old(db.users)[i := old(db.users)[i].(isActive := isActive)]
      && r == Success(ToAdminUserDto(db.users[i]))
      && GetUser(db.users, id) == r
    ensures db.portfolios == old(db.portfolios) && db.groups == old(db.groups) && db.holdings == old(db.holdings)
    ensures db.snapshots == old(db.snapshots)
    ensures db.nextGroupId == old(db.nextGroupId) && db.nextHoldingId == old(db.nextHoldingId) && db.nextSnapshotId == old(db.nextSnapshotId)
    ensures old(db.Valid()) ==> db.Valid()
  {
    var found := FindUserIndex(db.users, id);
    if found.None? {
      return Failure(UserNotFound);
    }
    if !updateSucceeds {
      return Failure(UpdateFailed);
    }
    var i := found.value;
    db.users := db.users[i := db.users[i].(isActive := isActive)];
    FindUserIndexByIds(old(db.users), db.users, id);
    return Success(ToAdminUserDto(db.users[i]));
  }

  // ---------------------------------------------------------------- Roles

  /** AppRoles.All. */
  const AllRoles: seq<string> := ["User", "Admin"]

  /** `AppRoles.All.Contains(role, StringComparer.OrdinalIgnoreCase)`. */
  predicate IsKnownRole(role: string) {
    exists k :: 0 <= k < |AllRoles| && EqualsIgnoreCase(AllRoles[k], role)
  }

  /** Some entry of `roles` equals `role` ignoring case. */
  predicate HasIgnoreCase(roles: seq<string>, role: string) {
    exists k :: 0 <= k < |roles| && EqualsIgnoreCase(roles[k], role)
  }

  /**
   * The requested roles without null or blank entries, trimmed, and with
   * later case-insensitive duplicates dropped.
   */
  function NormalizeRoles(roles: seq<Option<string>>): (r: seq<string>)
    ensures |r| <= |roles|
  {
    if roles == [] then []
    else
      var kept := NormalizeRoles(roles[..|roles| - 1]);
      var last := roles[|roles| - 1];
      if IsNullOrWhiteSpace(last) || HasIgnoreCase(kept, Trim(last.value)) then kept
      else kept + [Trim(last.value)]
  }

  /** Every normalised role is the trimmed form of a non-blank requested role. */
  lemma {:induction false} NormalizeRolesSound(roles: seq<Option<string>>)
    ensures forall k :: 0 <= k < |NormalizeRoles(roles)| ==>
      exists j :: 0 <= j < |roles| && !IsNullOrWhiteSpace(roles[j]) && NormalizeRoles(roles)[k] == Trim(roles[j].value)
  {
    if roles != [] {
      var init := roles[..|roles| - 1];
      NormalizeRolesSound(init);
      var kept := NormalizeRoles(init);
      var r := NormalizeRoles(roles);
      forall k | 0 <= k < |r|
        ensures exists j :: 0 <= j < |roles| && !IsNullOrWhiteSpace(roles[j]) && r[k] == Trim(roles[j].value)
      {
        if k < |kept| {
          assert r[k] == kept[k];
          var j :| 0 <= j < |init| && !IsNullOrWhiteSpace(init[j]) && NormalizeRoles(init)[k] == Trim(init[j].value);
          assert roles[j] == init[j];
        } else {
          var last := roles[|roles| - 1];
          assert !IsNullOrWhiteSpace(last) && r == kept + [Trim(last.value)];
          assert r[k] == Trim(roles[|roles| - 1].value);
        }
      }
    } else {
      assert NormalizeRoles(roles) == [];
    }
  }

  /** Every non-blank requested role is among the normalised ones, up to case. */
  lemma {:induction false} NormalizeRolesComplete(roles: seq<Option<string>>)
    ensures forall j :: 0 <= j < |roles| && !IsNullOrWhiteSpace(roles[j]) ==>
      HasIgnoreCase(NormalizeRoles(roles), Trim(roles[j].value))
  {
    if roles != [] {
      var init := roles[..|roles| - 1];
      var last := roles[|roles| - 1];
      NormalizeRolesComplete(init);
      var kept := NormalizeRoles(init);
      var r := NormalizeRoles(roles);
      assert kept <= r;
      forall j | 0 <= j < |roles| && !IsNullOrWhiteSpace(roles[j]) ensures HasIgnoreCase(r, Trim(roles[j].value)) {
        if j < |init| {
          assert roles[j] == init[j];
          var k :| 0 <= k < |kept| && EqualsIgnoreCase(kept[k], Trim(init[j].value));
          assert r[k] == kept[k];
        } else if !HasIgnoreCase(kept, Trim(last.value)) {
          assert r[|kept|] == Trim(last.value);
        }
      }
    }
  }

  /** No two normalised roles differ only in case. */
  lemma {:induction false} NormalizeRolesDistinct(roles: seq<Option<string>>)
    ensures forall a, b :: 0 <= a < b < |NormalizeRoles(roles)| ==>
      !EqualsIgnoreCase(NormalizeRoles(roles)[a], NormalizeRoles(roles)[b])
  {
    if roles != [] {
      var init := roles[..|roles| - 1];
      var last := roles[|roles| - 1];
      NormalizeRolesDistinct(init);
      var kept := NormalizeRoles(init);
      var r := NormalizeRoles(roles);
      if r != kept {
        assert r == kept + [Trim(last.value)];
        forall a, b | 0 <= a < b < |r| ensures !EqualsIgnoreCase(r[a], r[b]) {
          if b == |kept| {
            assert !EqualsIgnoreCase(kept[a], Trim(last.value));
          } else {
            assert r[a] == kept[a] && r[b] == kept[b];
          }
        }
      }
    }
  }

  /** Every normalised role is a trimmed, non-blank string. */
  lemma NormalizedRolesTrimmed(roles: seq<Option<string>>)
    ensures forall k :: 0 <= k < |NormalizeRoles(roles)| ==>
      var role := NormalizeRoles(roles)[k];
      Trim(role) == role && !IsBlank(role)
  {
    var r := NormalizeRoles(roles);
    NormalizeRolesSound(roles);
    forall k | 0 <= k < |r| ensures Trim(r[k]) == r[k] && !IsBlank(r[k]) {
      var j :| 0 <= j < |roles| && !IsNullOrWhiteSpace(roles[j]) && r[k] == Trim(roles[j].value);
      TrimIdempotent(roles[j].value);
      TrimSpec(roles[j].value);
      TrimSpec(r[k]);
    }
  }

  /** The requested roles that are already trimmed, non-blank and distinct ignoring case. */
  predicate AlreadyNormal(roles: seq<Option<string>>) {
    && (forall k :: 0 <= k < |roles| ==> roles[k].Some? && !IsBlank(roles[k].value) && Trim(roles[k].value) == roles[k].value)
    && (forall a, b :: 0 <= a < b < |roles| ==> !EqualsIgnoreCase(roles[a].value, roles[b].value))
  }

  function Values(roles: seq<Option<string>>): (r: seq<string>)
    requires forall k :: 0 <= k < |roles| ==> roles[k].Some?
    ensures |r| == |roles| && forall k :: 0 <= k < |roles| ==> r[k] == roles[k].value
  {
    seq(|roles|, k requires 0 <= k < |roles| && roles[k].Some? => roles[k].value)
  }

  /** Dropping the last entry of a normal list leaves a normal list. */
  lemma AlreadyNormalInit(roles: seq<Option<string>>)
    requires AlreadyNormal(roles) && roles != []
    ensures AlreadyNormal(roles[..|roles| - 1])
  {
    var init := roles[..|roles| - 1];
    assert forall j :: 0 <= j < |init| ==> init[j] == roles[j];
  }

  /** The values of a list are the values of all but its last entry, then the last one's. */
  lemma ValuesSnoc(roles: seq<Option<string>>)
    requires forall k :: 0 <= k < |roles| ==> roles[k].Some?
    requires roles != []
    ensures Values(roles) == Values(roles[..|roles| - 1]) + [roles[|roles| - 1].value]
  {
  }

  /** Normalising a list that is already normal leaves it as it is, so normalising is idempotent. */
  lemma {:induction false} NormalizeRolesOfNormal(roles: seq<Option<string>>)
    requires AlreadyNormal(roles)
    ensures NormalizeRoles(roles) == Values(roles)
  {
    if roles != [] {
      var init := roles[..|roles| - 1];
      var last := roles[|roles| - 1];
      AlreadyNormalInit(roles);
      NormalizeRolesOfNormal(init);
      var kept := NormalizeRoles(init);
      assert !HasIgnoreCase(kept, Trim(last.value)) by {
        forall k | 0 <= k < |kept| ensures !EqualsIgnoreCase(kept[k], Trim(last.value)) {
          assert kept[k] == roles[k].value;
        }
      }
      ValuesSnoc(roles);
    }
  }

  /** FirstOrDefault(role => !AppRoles.All.Contains(role, OrdinalIgnoreCase)). */
  function FirstUnknownRole(roles: seq<string>): (r: Option<string>)
    ensures r.None? <==> forall k :: 0 <= k < |roles| ==> IsKnownRole(roles[k])
    ensures r.Some? ==> exists k :: 0 <= k < |roles| && roles[k] == r.value && !IsKnownRole(r.value) &&
                                    forall j :: 0 <= j < k ==> IsKnownRole(roles[j])
  {
    if roles == [] then None
    else if !IsKnownRole(roles[0]) then Some(roles[0])
    else
      match FirstUnknownRole(roles[1..])
      case None => None
      case Some(role) =>
        var k :| 0 <= k < |roles[1..]| && roles[1..][k] == role && !IsKnownRole(role) &&
                 forall j :: 0 <= j < k ==> IsKnownRole(roles[1..][j]);
        assert roles[k + 1] == role;
        Some(role)
  }

  /** The role's name as the roles table spells it, which is what GetRolesAsync reports. */
  function CanonicalRole(role: string): (r: string)
    requires IsKnownRole(role)
    ensures r in AllRoles && EqualsIgnoreCase(r, role)
  {
    if EqualsIgnoreCase("Admin", role) then "Admin" else "User"
  }

  function CanonicalRoles(roles: seq<string>): (r: seq<string>)
    requires forall k :: 0 <= k < |roles| ==> IsKnownRole(roles[k])
    ensures |r| == |roles| && forall k :: 0 <= k < |roles| ==> r[k] == CanonicalRole(roles[k])
  {
    seq(|roles|, k requires 0 <= k < |roles| && IsKnownRole(roles[k]) => CanonicalRole(roles[k]))
  }

  /** Roles that are distinct ignoring case have distinct canonical names. */
  lemma CanonicalRolesDistinct(roles: seq<string>)
    requires forall k :: 0 <= k < |roles| ==> IsKnownRole(roles[k])
    requires forall a, b :: 0 <= a < b < |roles| ==> !EqualsIgnoreCase(roles[a], roles[b])
    ensures forall a, b :: 0 <= a < b < |roles| ==> CanonicalRoles(roles)[a] != CanonicalRoles(roles)[b]
  {
  }

  /**
   * UpdateUserRoles: an unknown user is not found; an empty normalised list
   * and an unsupported role are rejected; otherwise the user's roles are
   * removed and the normalised ones added, each step saved on its own, so a
   * failed addition leaves the user with no roles.
   */
  method UpdateUserRoles(db: Database, id: string, roles: seq<Option<string>>, removeSucceeds: bool, addSucceeds: bool)
    returns (r: Result<AdminUserDto, AdminError>)
    modifies db
    ensures FindUserIndex(old(db.users), id).None? ==> r == Failure(UserNotFound) && unchanged(db)
    ensures FindUserIndex(old(db.users), id).Some? && NormalizeRoles(roles) == [] ==>
      r == Failure(RolesRequired) && unchanged(db)
    ensures FindUserIndex(old(db.users), id).Some? && FirstUnknownRole(NormalizeRoles(roles)).Some? ==>
      r == Failure(InvalidRole(FirstUnknownRole(NormalizeRoles(roles)).value)) && unchanged(db)
    ensures FindUserIndex(old(db.users), id).Some? && NormalizeRoles(roles) != [] &&
            FirstUnknownRole(NormalizeRoles(roles)).None? ==>
      var i := FindUserIndex(old(db.users), id).value;
      var user := old(db.users)[i];
      var granted := CanonicalRoles(NormalizeRoles(roles));
      && (!removeSucceeds ==> r == Failure(RolesUpdateFailed) && unchanged(db))
      && (removeSucceeds && !addSucceeds ==>
            r == Failure(RolesUpdateFailed) && db.users == old(db.users)[i := user.(roles := [])])
      && (removeSucceeds && addSucceeds ==>
            && db.users == old(db.users)[i := user.(roles := granted)]
            && r == Success(ToAdminUserDto(user.(roles := granted)))
            && (forall k :: 0 <= k < |granted| ==> granted[k] in AllRoles)
            && (forall a, b :: 0 <= a < b < |granted| ==> granted[a] != granted[b])
            && (forall j :: 0 <= j < |roles| && !IsNullOrWhiteSpace(roles[j]) ==> HasIgnoreCase(granted, Trim(roles[j].value))))
    ensures db.portfolios == old(db.portfolios) && db.groups == old(db.groups) && db.holdings == old(db.holdings)
    ensures db.snapshots == old(db.snapshots)
    ensures db.nextGroupId == old(db.nextGroupId) && db.nextHoldingId == old(db.nextHoldingId) && db.nextSnapshotId == old(db.nextSnapshotId)
    ensures old(db.Valid()) ==> db.Valid()
  {
    var found := FindUserIndex(db.users, id);
    if found.None? {
      return Failure(UserNotFound);
    }
    var i := found.value;
    var normalized := NormalizeRoles(roles);
    if |normalized| == 0 {
      return Failure(RolesRequired);
    }
    var invalid := FirstUnknownRole(normalized);
    if invalid.Some? {
      return Failure(InvalidRole(invalid.value));
    }
    if !removeSucceeds {
      return Failure(RolesUpdateFailed);
    }
    var user := db.users[i];
    db.users := db.users[i := user.(roles := [])];
    if !addSucceeds {
      return Failure(RolesUpdateFailed);
    }
    var granted := CanonicalRoles(normalized);
    NormalizeRolesDistinct(roles);
    CanonicalRolesDistinct(normalized);
    GrantedCoversRequest(roles, normalized, granted);
    db.users := db.users[i := user.(roles := granted)];
    return Success(ToAdminUserDto(user.(roles := granted)));
  }

  /** Every non-blank requested role is granted, in its canonical spelling. */
  lemma GrantedCoversRequest(roles: seq<Option<string>>, normalized: seq<string>, granted: seq<string>)
    requires normalized == NormalizeRoles(roles)
    requires forall k :: 0 <= k < |normalized| ==> IsKnownRole(normalized[k])
    requires granted == CanonicalRoles(normalized)
    ensures forall j :: 0 <= j < |roles| && !IsNullOrWhiteSpace(roles[j]) ==> HasIgnoreCase(granted, Trim(roles[j].value))
  {
    NormalizeRolesComplete(roles);
    forall j | 0 <= j < |roles| && !IsNullOrWhiteSpace(roles[j]) ensures HasIgnoreCase(granted, Trim(roles[j].value)) {
      var k :| 0 <= k < |normalized| && EqualsIgnoreCase(normalized[k], Trim(roles[j].value));
      assert EqualsIgnoreCase(granted[k], Trim(roles[j].value));
    }
  }
}
