/**
 * Login (src/services/auth_service.py): the credential check and the token
 * issued on success. The password hasher's verify function is a parameter;
 * the clock readings of token creation are too.
 */
module AuthService {
  import opened Wrappers
  import opened Uuids
  import opened Db
  import opened Http
  import opened Security
  import opened UserService

  /** The user the identifiers select: by email when one is given, else by username, else nobody. */
  function IdentifiedUser(t: Tables, email: Option<string>, username: Option<string>): (r: Option<User>)
    ensures r.Some? ==> r.value in t.users
    ensures Truthy(email) ==> r == GetUserByEmail(t, email.value)
    ensures !Truthy(email) && Truthy(username) ==> r == GetUserByUsername(t, username.value)
    ensures !Truthy(email) && !Truthy(username) ==> r.None?
  {
    if Truthy(email) then GetUserByEmail(t, email.value)
    else if Truthy(username) then GetUserByUsername(t, username.value)
    else None
  }

  /**
   * `authenticate_user`: the selected user, provided it exists, is active
   * and the password verifies against its stored hash; None otherwise, the
   * same None for every failure.
   */
  function AuthenticateUser(t: Tables, verify: (string, string) -> bool, password: string, email: Option<string>, username: Option<string>)
    : (r: Option<User>)
    ensures r.Some? ==> r.value in t.users && r.value.isActive && verify(password, r.value.passwordHash)
    ensures r.Some? ==> if Truthy(email) then r.value.email == email.value else Truthy(username) && r.value.username == username.value
    ensures r.Some? <==>
      var u := IdentifiedUser(t, email, username);
      u.Some? && u.value.isActive && verify(password, u.value.passwordHash)
  {
    match IdentifiedUser(t, email, username)
    case None => None
    case Some(user) =>
      if !user.isActive then None
      else if !verify(password, user.passwordHash) then None
      else Some(user)
  }

  /** When an email is given the username is never looked at. */
  lemma EmailTakesPrecedence(t: Tables, verify: (string, string) -> bool, password: string, email: string, u1: Option<string>, u2: Option<string>)
    requires email != ""
    ensures AuthenticateUser(t, verify, password, Some(email), u1) == AuthenticateUser(t, verify, password, Some(email), u2)
  {
  }

  /**
   * In a consistent database a user signing in with their own email gets
   * in exactly when the account is active and the password verifies, and
   * the same holds for their username when no email is sent.
   */
  lemma AuthenticatesExactlyTheHolder(t: Tables, verify: (string, string) -> bool, password: string, u: User, username: Option<string>)
    requires Consistent(t) && u in t.users
    ensures u.email != "" ==>
      AuthenticateUser(t, verify, password, Some(u.email), username)
        == if u.isActive && verify(password, u.passwordHash) then Some(u) else None
    ensures u.username != "" ==>
      AuthenticateUser(t, verify, password, None, Some(u.username))
        == if u.isActive && verify(password, u.passwordHash) then Some(u) else None
  {
    LookupsFindTheUser(t, u);
    if u.email != "" {
      assert IdentifiedUser(t, Some(u.email), username) == Some(u);
    }
    if u.username != "" {
      assert IdentifiedUser(t, None, Some(u.username)) == Some(u);
    }
  }

  /** An inactive account never gets in, whatever the password. */
  lemma InactiveNeverAuthenticates(t: Tables, verify: (string, string) -> bool, password: string, u: User,
                                   email: Option<string>, username: Option<string>)
    requires Consistent(t) && u in t.users && !u.isActive
    ensures AuthenticateUser(t, verify, password, email, username) != Some(u)
  {
  }

  /**
   * `authenticate_user` as written: the last check reads `user.password`,
   * an attribute the User model does not have (its column is
   * `password_hash`), so every request that gets that far raises.
   */
  function AuthenticateUserAsWritten(t: Tables, verify: (string, string) -> bool, password: string, email: Option<string>, username: Option<string>)
    : (r: Result<Option<User>, Fault>)
    ensures r.Ok? ==> r.value.None?
    ensures r.Err? <==> var u := IdentifiedUser(t, email, username); u.Some? && u.value.isActive
  {
    match IdentifiedUser(t, email, username)
    case None => Ok(None)
    case Some(user) =>
      if !user.isActive then Ok(None)
      else Err(AttributeError("password"))
  }

  /**
   * The discrepancy on a concrete shape of input: an active user who signs
   * in with their email and the right password is refused with a server
   * error as written, and admitted by the repaired check.
   */
  lemma PasswordAttributeFinding(t: Tables, verify: (string, string) -> bool, password: string, u: User)
    requires Consistent(t) && u in t.users && u.isActive && u.email != ""
    requires verify(password, u.passwordHash)
    ensures AuthenticateUserAsWritten(t, verify, password, Some(u.email), None) == Err(AttributeError("password"))
    ensures AuthenticateUser(t, verify, password, Some(u.email), None) == Some(u)
  {
    LookupsFindTheUser(t, u);
  }

  /** `create_token_for_user`: a token with the default lifetime whose subject is the user's id. */
  function CreateTokenForUser(cfg: Config, user: User, t1: int, t2: int): (r: Token)
    requires t1 <= t2
    ensures r.Signed? && "sub" in r.claims && "exp" in r.claims
    ensures r.claims["sub"] == Text(Format(user.id))
    ensures r.claims["exp"] == Instant(t1 + cfg.expirationMinutes * 60)
  {
    CreateAccessToken(cfg, user.id, None, t1, t2)
  }

  /** The token issued at login names the user until its default lifetime runs out, and nothing after. */
  lemma TokenForUserVerifies(cfg: Config, user: User, t1: int, t2: int, now: int)
    requires t1 <= t2
    ensures now <= t1 + cfg.expirationMinutes * 60 ==>
      VerifyAccessToken(cfg, CreateTokenForUser(cfg, user, t1, t2), now) == Some(Format(user.id))
    ensures now > t1 + cfg.expirationMinutes * 60 ==>
      VerifyAccessToken(cfg, CreateTokenForUser(cfg, user, t1, t2), now).None?
  {
    if now <= t1 + cfg.expirationMinutes * 60 {
      VerifyCreatedToken(cfg, user.id, None, t1, t2, now);
    } else {
      ExpiredTokenRejected(cfg, user.id, None, t1, t2, now);
    }
  }
}
