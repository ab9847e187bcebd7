/**
 * The user endpoints (src/api/routes/user.py), all behind the administrator
 * gate: the checks that run before a user is created, the paged listing,
 * and soft (de)activation with its guard against deactivating oneself.
 * The acting administrator is passed in as `admin`, the user the gate
 * admitted.
 */
module UserRoutes {
  import opened Wrappers
  import opened Uuids
  import opened Collections
  import opened Db
  import opened Http
  import opened UserService

  const EmailTaken := "El email ya está registrado"
  const UsernameTaken := "El nombre de usuario ya está registrado"
  const UserNotFound := "Usuario no encontrado"
  const SelfDeactivation := "No puedes desactivarte a ti mismo"

  /** The text the f-string prints for `role_name`: the name, or "None" for a null. */
  function RoleNameText(roleName: Option<string>): string {
    match roleName
    case Some(name) => name
    case None => "None"
  }

  function RoleMissing(roleName: Option<string>): string {
    "El rol '" + RoleNameText(roleName) + "' no existe"
  }

  // ---- POST /users -----------------------------------------------------------

  /**
   * The checks of `create_user`, in order: a taken email, then a taken
   * username, then the role by name. The first that fails decides the
   * answer; when none fails, the role found.
   */
  function CreateUserCheck(t: Tables, data: UserCreate): (r: Result<Role, HttpError>)
    ensures GetUserByEmail(t, data.email).Some? ==> r == Err(HttpException(BadRequest, EmailTaken))
    ensures GetUserByEmail(t, data.email).None? && GetUserByUsername(t, data.username).Some? ==>
      r == Err(HttpException(BadRequest, UsernameTaken))
    ensures GetUserByEmail(t, data.email).None? && GetUserByUsername(t, data.username).None? ==>
      r == match GetRoleByName(t, data.roleName)
           case None => Err(HttpException(NotFound, RoleMissing(data.roleName)))
           case Some(role) => Ok(role)
    ensures r.Ok? ==>
      && (forall u :: u in t.users ==> u.email != data.email && u.username != data.username)
      && r.value in t.roles && Some(r.value.name) == data.roleName
  {
    if GetUserByEmail(t, data.email).Some? then Err(HttpException(BadRequest, EmailTaken))
    else if GetUserByUsername(t, data.username).Some? then Err(HttpException(BadRequest, UsernameTaken))
    else match GetRoleByName(t, data.roleName)
      case None => Err(HttpException(NotFound, RoleMissing(data.roleName)))
      case Some(role) => Ok(role)
  }

  /**
   * Passing the route's checks means the insert cannot be refused: the
   * email and username are free and the role exists, so no IntegrityError
   * reaches the client.
   */
  lemma CheckedCreateIsAccepted(t: Tables, data: UserCreate, newId: Uuid, createdBy: Uuid, hash: string -> string)
    requires CreateUserCheck(t, data).Ok?
    ensures InsertUserConflict(t, NewUser(newId, data, CreateUserCheck(t, data).value.id, createdBy, hash)).None?
  {
    var role := CreateUserCheck(t, data).value;
    assert role.id in RoleIds(t);
  }

  /**
   * POST /users: the checks, then `create_user` with the found role and the
   * administrator as creator. `newId` is the uuid4 the row receives. No
   * user is created on any failure.
   */
  method CreateUserRoute(db: Store, data: UserCreate, admin: User, hash: string -> string, newId: Uuid)
    returns (r: Result<User, HttpError>)
    requires db.Valid()
    requires UserCreateWellFormed(data)
    requires newId !in UserIds(db.Snapshot())
    modifies db
    ensures db.Valid()
    ensures CreateUserCheck(old(db.Snapshot()), data).Err? ==>
      r == Err(CreateUserCheck(old(db.Snapshot()), data).error) && db.Snapshot() == old(db.Snapshot())
    ensures CreateUserCheck(old(db.Snapshot()), data).Ok? ==>
      && r == Ok(NewUser(newId, data, CreateUserCheck(old(db.Snapshot()), data).value.id, admin.id, hash))
      && db.Snapshot() == old(db.Snapshot()).(users := old(db.users) + [r.value])
  {
    var check := CreateUserCheck(db.Snapshot(), data);
    if check.Err? {
      return Err(check.error);
    }
    CheckedCreateIsAccepted(db.Snapshot(), data, newId, admin.id, hash);
    var created := CreateUser(db, data, check.value.id, admin.id, hash, newId);
    r := match created
      case Ok(user) => Ok(user)
      case Err(e) => Err(ServerError(IntegrityError(e)));
  }

  // ---- GET /users --------------------------------------------------------------

  datatype UserListResponse = UserListResponse(items: seq<User>, total: nat, page: nat, pageSize: nat, totalPages: nat)

  /** The `is_active` query parameter when the client leaves it out: active users only. */
  const DefaultIsActive: Option<bool> := Some(true)

  /** The query bounds: `page >= 1`, `1 <= page_size <= 100`. */
  predicate PageQueryValid(page: nat, pageSize: nat) {
    page >= 1 && 1 <= pageSize <= 100
  }

  /** GET /users: one page of the users the filter keeps, the total and the page count. */
  function ListUsersRoute(t: Tables, page: nat, pageSize: nat, isActive: Option<bool>): (r: UserListResponse)
    requires PageQueryValid(page, pageSize)
    ensures r.page == page && r.pageSize == pageSize
    ensures r.total == |ActiveFilter(t.users, isActive)|
    ensures r.items == Page(NewestFirst(ActiveFilter(t.users, isActive)), page, pageSize)
    ensures r.totalPages == CalculateTotalPages(r.total, pageSize)
    ensures forall u :: u in r.items ==> u in t.users && (isActive.Some? ==> u.isActive == isActive.value)
  {
    var listing := GetUsersPaginated(t, page, pageSize, isActive);
    UserListResponse(listing.0, listing.1, page, pageSize, CalculateTotalPages(listing.1, pageSize))
  }

  /** Without an `is_active` parameter the listing shows active users only. */
  lemma ListUsersDefaultsToActive(t: Tables, page: nat, pageSize: nat)
    requires PageQueryValid(page, pageSize)
    ensures forall u :: u in ListUsersRoute(t, page, pageSize, DefaultIsActive).items ==> u.isActive
    ensures ListUsersRoute(t, page, pageSize, DefaultIsActive).total == |Filter(t.users, (u: User) => u.isActive == true)|
  {
  }

  // ---- PATCH /users/{id}/deactivate and /activate -----------------------------

  /**
   * PATCH /users/{id}/deactivate: an administrator asking to deactivate
   * themselves gets 400 before any lookup; an unknown id gets 404.
   * Otherwise the user is deactivated with the administrator as updater.
   */
  method DeactivateUserRoute(db: Store, userId: Uuid, admin: User) returns (r: Result<User, HttpError>)
    requires db.Valid()
    modifies db
    ensures db.Valid()
    ensures admin.id == userId ==> r == Err(HttpException(BadRequest, SelfDeactivation))
    ensures admin.id != userId && userId !in UserIds(old(db.Snapshot())) ==> r == Err(HttpException(NotFound, UserNotFound))
    ensures r.Err? ==> db.Snapshot() == old(db.Snapshot())
    ensures r.Ok? <==> admin.id != userId && userId in UserIds(old(db.Snapshot()))
    ensures r.Ok? ==>
      && r.value == WithActive(GetUserById(old(db.Snapshot()), userId).value, false, admin.id)
      && db.Snapshot() == old(db.Snapshot()).(users := ReplaceBy(old(db.users), UserIdOf, r.value))
    ensures forall u :: u in old(db.users) && u.id == admin.id ==> u in db.users
  {
    if admin.id == userId {
      return Err(HttpException(BadRequest, SelfDeactivation));
    }
    ghost var before := db.users;
    var user := DeactivateUser(db, userId, admin.id);
    if user.None? {
      return Err(HttpException(NotFound, UserNotFound));
    }
    r := Ok(user.value);
    ReplaceByKeeps(before, UserIdOf, user.value);
  }

  /** PATCH /users/{id}/activate: an unknown id gets 404; otherwise the user is active again. */
  method ActivateUserRoute(db: Store, userId: Uuid, admin: User) returns (r: Result<User, HttpError>)
    requires db.Valid()
    modifies db
    ensures db.Valid()
    ensures r.Err? <==> userId !in UserIds(old(db.Snapshot()))
    ensures r.Err? ==> r.error == HttpException(NotFound, UserNotFound) && db.Snapshot() == old(db.Snapshot())
    ensures r.Ok? ==>
      && r.value == WithActive(GetUserById(old(db.Snapshot()), userId).value, true, admin.id)
      && r.value.isActive
      && db.Snapshot() == old(db.Snapshot()).(users := ReplaceBy(old(db.users), UserIdOf, r.value))
  {
    var user := ActivateUser(db, userId, admin.id);
    if user.None? {
      return Err(HttpException(NotFound, UserNotFound));
    }
    r := Ok(user.value);
  }

  // ---- The service calls as the routes write them -------------------------------

  /** The text of the TypeError Python raises for a call that leaves out a required positional argument. */
  function MissingArgument(callee: string, arg: string): string {
    callee + "() missing 1 required positional argument: '" + arg + "'"
  }

  /**
   * POST /users as written: the call `create_user(user_data, role.id)` leaves
   * out `created_by`, so once the checks pass the call raises before the
   * service runs and the client gets 500.
   */
  function CreateUserRouteAsWritten(t: Tables, data: UserCreate): (r: Result<User, HttpError>)
    ensures r.Err?
    ensures CreateUserCheck(t, data).Err? ==> r.error == CreateUserCheck(t, data).error
    ensures CreateUserCheck(t, data).Ok? ==>
      r.error == ServerError(TypeError(MissingArgument("UserService.create_user", "created_by")))
  {
    match CreateUserCheck(t, data)
    case Err(e) => Err(e)
    case Ok(_) => Err(ServerError(TypeError(MissingArgument("UserService.create_user", "created_by"))))
  }

  /** PATCH /users/{id}/deactivate as written: `deactivate_user(user_id)` leaves out `updated_by`. */
  function DeactivateUserRouteAsWritten(userId: Uuid, admin: User): (r: Result<User, HttpError>)
    ensures admin.id == userId ==> r == Err(HttpException(BadRequest, SelfDeactivation))
    ensures admin.id != userId ==>
      r == Err(ServerError(TypeError(MissingArgument("UserService.deactivate_user", "updated_by"))))
  {
    if admin.id == userId then Err(HttpException(BadRequest, SelfDeactivation))
    else Err(ServerError(TypeError(MissingArgument("UserService.deactivate_user", "updated_by"))))
  }

  /** PATCH /users/{id}/activate as written: `activate_user(user_id)` leaves out `updated_by`. */
  function ActivateUserRouteAsWritten(userId: Uuid): (r: Result<User, HttpError>)
    ensures r.Err? && r.error.ServerError? && r.error.Code() == InternalServerError
  {
    Err(ServerError(TypeError(MissingArgument("UserService.activate_user", "updated_by"))))
  }

  /**
   * The discrepancy on concrete inputs: a request every check accepts (a
   * free email and username, a stored role; another stored user to
   * deactivate or activate) is answered 500 by the routes as written,
   * while the routes above, which pass the administrator as the actor,
   * succeed on it.
   */
  lemma MissingActorFinding(t: Tables, data: UserCreate, u: User, admin: User, hash: string -> string, newId: Uuid)
    requires Consistent(t) && u in t.users && u.id != admin.id
    requires CreateUserCheck(t, data).Ok?
    ensures CreateUserRouteAsWritten(t, data).error.Code() == InternalServerError
    ensures InsertUserConflict(t, NewUser(newId, data, CreateUserCheck(t, data).value.id, admin.id, hash)).None?
    ensures DeactivateUserRouteAsWritten(u.id, admin).error.Code() == InternalServerError
    ensures ActivateUserRouteAsWritten(u.id).Err?
    ensures u.id in UserIds(t)
  {
    CheckedCreateIsAccepted(t, data, newId, admin.id, hash);
  }
}
