/**
 * The request dependencies (src/api/deps.py): from a bearer token to the
 * current user, and the administrator gate on top of it. Every protected
 * route receives its acting user from one of these two.
 */
module Deps {
  import opened Wrappers
  import opened Uuids
  import opened Db
  import opened Http
  import opened Security
  import opened UserService
  import RoleService
  import AuthService

  const InvalidToken := "Token inválido o expirado"
  const UserNotFound := "Usuario no encontrado"
  const InactiveUser := "Usuario inactivo"
  const AdminRequired := "No tienes permisos para realizar esta acción. Se requiere rol de administrador."

  /** The ValueError `UUID(text)` raises on text that is not a UUID. */
  const BadlyFormedUuid := "badly formed hexadecimal UUID string"

  /**
   * `get_current_user`: a token that does not verify gets 401 before any
   * lookup; a subject naming no user gets 401; an inactive user gets 401;
   * otherwise the active user the subject names.
   */
  function GetCurrentUser(cfg: Config, t: Tables, token: Token, now: int): (r: Result<User, HttpError>)
    ensures VerifyAccessToken(cfg, token, now).None? ==> r == Err(HttpException(Unauthorized, InvalidToken))
    ensures r.Err? ==> r.error.HttpException? || r.error == ServerError(ValueError(BadlyFormedUuid))
    ensures r.Ok? ==>
      && VerifyAccessToken(cfg, token, now).Some?
      && Parse(VerifyAccessToken(cfg, token, now).value) == Some(r.value.id)
      && r.value in t.users && r.value.isActive
    ensures VerifyAccessToken(cfg, token, now).Some? ==>
      match Parse(VerifyAccessToken(cfg, token, now).value)
      case None => r == Err(ServerError(ValueError(BadlyFormedUuid)))
      case Some(id) =>
        && (id !in UserIds(t) ==> r == Err(HttpException(Unauthorized, UserNotFound)))
        && (id in UserIds(t) && !GetUserById(t, id).value.isActive ==> r == Err(HttpException(Unauthorized, InactiveUser)))
        && (id in UserIds(t) && GetUserById(t, id).value.isActive ==> r == Ok(GetUserById(t, id).value))
  {
    match VerifyAccessToken(cfg, token, now)
    case None => Err(HttpException(Unauthorized, InvalidToken))
    case Some(sub) =>
      match Parse(sub)
      case None => Err(ServerError(ValueError(BadlyFormedUuid)))
      case Some(id) =>
        match GetUserById(t, id)
        case None => Err(HttpException(Unauthorized, UserNotFound))
        case Some(user) =>
          if !user.isActive then Err(HttpException(Unauthorized, InactiveUser))
          else Ok(user)
  }

  /**
   * `get_admin_user`: the current-user checks run first and their failure
   * is the answer; then a user whose role is not named exactly "admin" gets
   * 403. A user whose role row is missing would fail on `role.name`.
   */
  function GetAdminUser(cfg: Config, t: Tables, token: Token, now: int): (r: Result<User, HttpError>)
    ensures GetCurrentUser(cfg, t, token, now).Err? ==> r == GetCurrentUser(cfg, t, token, now)
    ensures r.Ok? ==>
      && r == GetCurrentUser(cfg, t, token, now)
      && RoleService.GetRoleById(t, r.value.roleId).Some?
      && RoleService.GetRoleById(t, r.value.roleId).value.name == "admin"
    ensures GetCurrentUser(cfg, t, token, now).Ok? ==>
      match RoleService.GetRoleById(t, GetCurrentUser(cfg, t, token, now).value.roleId)
      case None => r == Err(ServerError(AttributeError("name")))
      case Some(role) =>
        if role.name == "admin" then r == GetCurrentUser(cfg, t, token, now)
        else r == Err(HttpException(Forbidden, AdminRequired))
  {
    match GetCurrentUser(cfg, t, token, now)
    case Err(e) => Err(e)
    case Ok(user) =>
      match RoleService.GetRoleById(t, user.roleId)
      case None => Err(ServerError(AttributeError("name")))
      case Some(role) =>
        if role.name != "admin" then Err(HttpException(Forbidden, AdminRequired))
        else Ok(user)
  }

  /** In a consistent database a role row always exists, so the gate never fails on `role.name`. */
  lemma AdminGateNeverFaults(cfg: Config, t: Tables, token: Token, now: int)
    requires Consistent(t)
    ensures GetAdminUser(cfg, t, token, now) != Err(ServerError(AttributeError("name")))
  {
    var current := GetCurrentUser(cfg, t, token, now);
    if current.Err? {
      assert GetAdminUser(cfg, t, token, now) == current;
    } else {
      UserHasRole(t, current.value);
    }
  }

  lemma UserHasRole(t: Tables, u: User)
    requires Consistent(t) && u in t.users
    ensures RoleService.GetRoleById(t, u.roleId).Some?
  {
    assert u.roleId in RoleIds(t);
  }

  /**
   * The token issued to an active user admits that very user until it
   * expires; an account deactivated since gets 401 "Usuario inactivo", and
   * after the expiry the token gets 401 "Token inválido o expirado".
   */
  lemma IssuedTokenAdmitsItsUser(cfg: Config, t: Tables, u: User, t1: int, t2: int, now: int)
    requires Consistent(t) && u in t.users && t1 <= t2
    ensures now <= t1 + cfg.expirationMinutes * 60 ==>
      GetCurrentUser(cfg, t, AuthService.CreateTokenForUser(cfg, u, t1, t2), now)
        == if u.isActive then Ok(u) else Err(HttpException(Unauthorized, InactiveUser))
    ensures now > t1 + cfg.expirationMinutes * 60 ==>
      GetCurrentUser(cfg, t, AuthService.CreateTokenForUser(cfg, u, t1, t2), now)
        == Err(HttpException(Unauthorized, InvalidToken))
  {
    AuthService.TokenForUserVerifies(cfg, u, t1, t2, now);
    ParseFormat(u.id);
    LookupsFindTheUser(t, u);
  }

  /**
   * The gate on a token issued to a user: the user is admitted exactly
   * when active and holding the role named "admin"; an active user of any
   * other role gets 403.
   */
  lemma AdminGateOnIssuedToken(cfg: Config, t: Tables, u: User, t1: int, t2: int, now: int)
    requires Consistent(t) && u in t.users && u.isActive && t1 <= t2
    requires now <= t1 + cfg.expirationMinutes * 60
    ensures var r := GetAdminUser(cfg, t, AuthService.CreateTokenForUser(cfg, u, t1, t2), now);
      && (r.Ok? <==> RoleService.GetRoleById(t, u.roleId).value.name == "admin")
      && (r.Ok? ==> r.value == u)
      && (r.Err? ==> r == Err(HttpException(Forbidden, AdminRequired)))
  {
    IssuedTokenAdmitsItsUser(cfg, t, u, t1, t2, now);
    assert u.roleId in RoleIds(t);
  }

  /**
   * From login to the administrator gate: an administrator who signs in
   * with their email and the right password receives a token that passes
   * the gate, as them, until the token expires.
   */
  lemma LoginThenAdminGate(cfg: Config, t: Tables, verify: (string, string) -> bool, password: string, u: User,
                           t1: int, t2: int, now: int)
    requires Consistent(t) && u in t.users && u.email != "" && t1 <= t2
    requires AuthService.AuthenticateUser(t, verify, password, Some(u.email), None).Some?
    requires RoleService.GetRoleById(t, u.roleId).value.name == "admin"
    requires now <= t1 + cfg.expirationMinutes * 60
    ensures RoleService.GetRoleById(t, u.roleId).Some?
    ensures var user := AuthService.AuthenticateUser(t, verify, password, Some(u.email), None).value;
      GetAdminUser(cfg, t, AuthService.CreateTokenForUser(cfg, user, t1, t2), now) == Ok(u)
  {
    AuthService.AuthenticatesExactlyTheHolder(t, verify, password, u, None);
    AdminGateOnIssuedToken(cfg, t, u, t1, t2, now);
  }
}
