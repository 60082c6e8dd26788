/**
 * Role-based authorization: the literal permission matrix, the default-deny
 * lookup, the gate that runs after the active-user check, and the start-up
 * bootstrap that creates the first administrator.
 */
module Permission {
  import opened Common
  import opened Crypto
  import opened Security
  import opened Users
  import opened Dependencies

  /** Role, then resource, then the actions that role may perform on that resource. */
  const Matrix: map<string, map<string, seq<string>>> := map[
    "admin" := map[
      "users" := ["show_all", "delete_any", "disable_user", "manage_role"],
      "cards" := ["add_my", "show_my", "delete_my", "unfreeze_my", "show_all", "delete_any", "unfreeze_any"],
      "transactions" := ["make_payment", "show_for_my_card", "show_all", "delete_any"],
      "account" := ["show_info", "change_info", "delete_my", "logout"],
      "check" := ["health_check"]],
    "manager" := map[
      "users" := ["show_all"],
      "cards" := ["add_my", "show_my", "delete_my", "unfreeze_my", "show_all"],
      "transactions" := ["make_payment", "show_for_my_card", "show_all"],
      "account" := ["show_info", "change_info", "delete_my", "logout"]],
    "user" := map[
      "cards" := ["add_my", "show_my", "delete_my", "unfreeze_my"],
      "transactions" := ["make_payment", "show_for_my_card"],
      "account" := ["show_info", "change_info", "delete_my", "logout"]]
  ]

  const NotEnoughPermissions := HttpError(Forbidden, "Not enough permissions")

  /**
   * Whether the role may perform the action on the resource. `roleAttribute` is
   * the caller's role attribute, None when the object has none (then "user").
   * Anything not listed is denied; actions match exactly.
   */
  function CheckPermission(roleAttribute: Option<string>, resource: string, action: string): (allowed: bool)
    ensures var role := roleAttribute.GetOr(DefaultRole);
      allowed <==> role in Matrix && resource in Matrix[role] && action in Matrix[role][resource]
    ensures allowed ==> roleAttribute.GetOr(DefaultRole) in {"admin", "manager", "user"}
  {
    var role := roleAttribute.GetOr(DefaultRole);
    if role !in Matrix then false
    else
      var rolePermissions := Matrix[role];
      if resource !in rolePermissions then false
      else action in rolePermissions[resource]
  }

  /** A role outside the matrix is denied everything. */
  lemma UnknownRoleDenied(role: string, resource: string, action: string)
    requires role !in {"admin", "manager", "user"}
    ensures !CheckPermission(Some(role), resource, action)
  {
  }

  /** A caller without a role attribute is judged exactly as a "user". */
  lemma MissingRoleIsUser(resource: string, action: string)
    ensures CheckPermission(None, resource, action) == CheckPermission(Some("user"), resource, action)
  {
  }

  /** The resources each role has no entry for at all: users for "user", check for both non-admins. */
  lemma AbsentResourcesDenied(action: string)
    ensures !CheckPermission(Some("user"), "users", action)
    ensures !CheckPermission(Some("user"), "check", action)
    ensures !CheckPermission(Some("manager"), "check", action)
  {
  }

  /** Privilege is monotone: what a user may do a manager may do, and what a manager may do an admin may do. */
  lemma PrivilegeMonotone(resource: string, action: string)
    ensures CheckPermission(Some("user"), resource, action) ==> CheckPermission(Some("manager"), resource, action)
    ensures CheckPermission(Some("manager"), resource, action) ==> CheckPermission(Some("admin"), resource, action)
  {
  }

  /** Exactly these seven capabilities are the admin's alone. */
  lemma AdminOnlyCapabilities(resource: string, action: string)
    ensures CheckPermission(Some("admin"), resource, action) && !CheckPermission(Some("manager"), resource, action)
      <==> (resource, action) in {("users", "delete_any"), ("users", "disable_user"), ("users", "manage_role"),
                                  ("cards", "delete_any"), ("cards", "unfreeze_any"),
                                  ("transactions", "delete_any"), ("check", "health_check")}
  {
  }

  /** Exactly these three capabilities separate a manager from a user: seeing everything. */
  lemma ManagerOverUserCapabilities(resource: string, action: string)
    ensures CheckPermission(Some("manager"), resource, action) && !CheckPermission(Some("user"), resource, action)
      <==> (resource, action) in {("users", "show_all"), ("cards", "show_all"), ("transactions", "show_all")}
  {
  }

  // ---------------------------------------------------------------------------
  // The gate

  /** The permission check applied to the active-user outcome: 403 when the role may not act. */
  function Authorize(active: Result<User, HttpError>, resource: string, action: string): (r: Result<User, HttpError>)
    ensures r.Ok? <==> active.Ok? && CheckPermission(Some(active.value.role), resource, action)
    ensures r.Ok? ==> r == active
    ensures active.Ok? && !r.Ok? ==> r == Err(NotEnoughPermissions)
    ensures active.Err? ==> r == active
  {
    match active
    case Err(_) => active
    case Ok(user) =>
      if !CheckPermission(Some(user.role), resource, action) then Err(NotEnoughPermissions) else active
  }

  /**
   * The gate: the current active user, then the permission check for
   * (resource, action).
   */
  method RequirePermission(resource: string, action: string,
                           blacklist: TokenBlacklist, users: UserTable, token: Jwt, now: int, settings: Settings)
    returns (r: Result<User, HttpError>)
    requires users.Valid()
    modifies blacklist
    ensures blacklist.entries == Live(old(blacklist.entries), now)
    ensures r == Authorize(ActiveOnly(ResolveSession(Listed(blacklist.entries, token), token, users.rows, now, settings)),
                           resource, action)
  {
    var current := GetCurrentActiveUser(blacklist, users, token, now, settings);
    if current.Ok? && !CheckPermission(Some(current.value.role), resource, action) {
      return Err(NotEnoughPermissions);
    }
    return current;
  }

  /**
   * The matrix is consulted only for active users: a disabled user is stopped with
   * 400 before it, and the gate never admits a disabled user, whatever the role.
   */
  lemma GateStopsDisabledFirst(revoked: bool, token: Jwt, rows: map<int, User>, now: int, settings: Settings,
                               resource: string, action: string)
    requires UniqueEmails(rows)
    ensures var current := ResolveSession(revoked, token, rows, now, settings);
      var r := Authorize(ActiveOnly(current), resource, action);
      && (current.Ok? && current.value.disabled ==> r == Err(InactiveUser))
      && (r.Ok? ==> !r.value.disabled && r == current)
      && (r == Err(NotEnoughPermissions) ==>
            current.Ok? && !current.value.disabled && !CheckPermission(Some(current.value.role), resource, action))
  {
  }

  /** A row whose role was set to a string outside the matrix passes no gate. */
  lemma UnknownRoleRowPassesNoGate(u: User, resource: string, action: string)
    requires !u.disabled && u.role !in {"admin", "manager", "user"}
    ensures Authorize(ActiveOnly(Ok(u)), resource, action) == Err(NotEnoughPermissions)
  {
  }

  // ---------------------------------------------------------------------------
  // The first administrator

  /** The password the bootstrap administrator is created with. */
  const DefaultAdminPassword := "adminqwerty"

  /** The bootstrap administrator row, with its password hashed under `salt`. */
  function FirstAdmin(id: int, salt: nat): (u: User)
    ensures u.id == id && u.username == "admin" && u.email == "admin"
    ensures u.role == "admin" && !u.disabled
    ensures Verify(DefaultAdminPassword, u.hashedPassword)
  {
    User(id, "admin", Hash(DefaultAdminPassword, salt), "admin", "System", "Administrator", "", "", "System", false, "admin")
  }

  /** The keys of the admin-role rows. */
  function Admins(rows: map<int, User>): (ids: set<int>)
    ensures forall id :: id in ids <==> id in rows && rows[id].role == "admin"
  {
    set id | id in rows && rows[id].role == "admin"
  }

  /**
   * What the bootstrap reports: an admin was already there, one was created under
   * this key, the admin query failed because there are several admins, or the
   * commit was rejected by a unique constraint.
   */
  datatype Bootstrap = AdminPresent | AdminCreated(id: int) | MultipleAdmins | Rejected

  /**
   * Creates the bootstrap administrator unless an admin-role row exists. Several
   * admin rows make the single-row query fail. A row already holding the username
   * or email "admin" makes the commit fail.
   */
  method CreateFirstAdmin(users: UserTable, salt: nat) returns (r: Bootstrap)
    requires users.Valid()
    modifies users
    ensures users.Valid()
    ensures |Admins(old(users.rows))| == 1 ==> r == AdminPresent && users.rows == old(users.rows) && users.nextId == old(users.nextId)
    ensures |Admins(old(users.rows))| > 1 ==> r == MultipleAdmins && users.rows == old(users.rows) && users.nextId == old(users.nextId)
    ensures Admins(old(users.rows)) == {} && Clashes(old(users.rows), old(users.nextId), FirstAdmin(0, salt)) ==>
      r == Rejected && users.rows == old(users.rows) && users.nextId == old(users.nextId)
    ensures Admins(old(users.rows)) == {} && !Clashes(old(users.rows), old(users.nextId), FirstAdmin(0, salt)) ==>
      && r == AdminCreated(old(users.nextId))
      && users.rows == old(users.rows)[old(users.nextId) := FirstAdmin(old(users.nextId), salt)]
      && users.nextId == old(users.nextId) + 1
  {
    var admins := Admins(users.rows);
    if |admins| > 1 {
      return MultipleAdmins;
    }
    if |admins| == 1 {
      return AdminPresent;
    }
    var inserted := users.AddNewUser(FirstAdmin(0, salt));
    if inserted.Err? {
      return Rejected;
    }
    return AdminCreated(inserted.value);
  }

  /**
   * After a successful bootstrap the table holds exactly one admin, the new row;
   * so a second bootstrap finds it and changes nothing.
   */
  lemma BootstrapLeavesOneAdmin(rows: map<int, User>, id: int, salt: nat)
    requires Admins(rows) == {} && id !in rows
    ensures Admins(rows[id := FirstAdmin(id, salt)]) == {id}
    ensures |Admins(rows[id := FirstAdmin(id, salt)])| == 1
  {
  }

  /** The bootstrap administrator can sign in with the default password, by its email "admin". */
  lemma BootstrapAdminAuthenticates(rows: map<int, User>, id: int, salt: nat, attempt: string)
    requires UniqueEmails(rows) && id in rows && rows[id] == FirstAdmin(id, salt)
    ensures AuthenticateUser(rows, "admin", attempt) == if attempt == DefaultAdminPassword then Some(rows[id]) else None
  {
    AuthenticateStoredPassword(rows, id, DefaultAdminPassword, salt, attempt);
  }
}
