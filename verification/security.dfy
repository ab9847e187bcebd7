/**
 * Access tokens (src/core/security.py). A token is a JSON Web Token whose
 * registered claims are `sub` (section 4.1.2 of RFC 7519), `exp` (section
 * 4.1.4) and `iat` (section 4.1.6). Signing and decoding belong to the JWT
 * library; here a token is the symbolic value the library would produce, so
 * that encoding and decoding are an exact pair: a token decodes only under the
 * key and algorithm it was signed with. Clock readings are whole seconds
 * passed in by the caller. Password hashing stays opaque: callers pass the
 * hash and verify functions of the password hasher.
 */
module Security {
  import opened Wrappers
  import opened Uuids

  /** The JWT settings read from the environment at start-up. */
  datatype Config = Config(secretKey: string, algorithm: string, expirationMinutes: int)

  datatype ClaimValue = Text(text: string) | Instant(seconds: int)

  type Claims = map<string, ClaimValue>

  /** A compact JWS as the library sees it: signed claims, or text that does not parse. */
  datatype Token = Signed(claims: Claims, key: string, algorithm: string) | Unparseable(text: string)

  /** The library's reasons for raising JWTError. */
  datatype JwtError = Malformed | DisallowedAlgorithm | BadSignature | Expired | InvalidClaim(name: string)

  /** `jwt.encode(claims, key, algorithm)`. */
  function Encode(claims: Claims, key: string, algorithm: string): Token {
    Signed(claims, key, algorithm)
  }

  /**
   * The claim checks `jwt.decode` applies once the signature holds: `iat`
   * and `exp` must be instants, the token has expired once `exp` is before
   * `now`, and `sub` must be text.
   */
  function CheckClaims(c: Claims, now: int): (r: Result<Claims, JwtError>)
    ensures r.Ok? ==> r.value == c
    ensures r.Ok? <==>
      && ("iat" in c ==> c["iat"].Instant?)
      && ("exp" in c ==> c["exp"].Instant? && now <= c["exp"].seconds)
      && ("sub" in c ==> c["sub"].Text?)
  {
    if "iat" in c && !c["iat"].Instant? then Err(InvalidClaim("iat"))
    else if "exp" in c && !c["exp"].Instant? then Err(InvalidClaim("exp"))
    else if "exp" in c && c["exp"].seconds < now then Err(Expired)
    else if "sub" in c && !c["sub"].Text? then Err(InvalidClaim("sub"))
    else Ok(c)
  }

  /** `jwt.decode(token, key, algorithms=...)` at time `now`. */
  function Decode(token: Token, key: string, algorithms: seq<string>, now: int): (r: Result<Claims, JwtError>)
    ensures r.Ok? ==> token.Signed? && token.key == key && token.algorithm in algorithms && r.value == token.claims
  {
    match token
    case Unparseable(_) => Err(Malformed)
    case Signed(c, k, a) =>
      if a !in algorithms then Err(DisallowedAlgorithm)
      else if k != key then Err(BadSignature)
      else CheckClaims(c, now)
  }

  /** A token decodes to the claims it was signed with, under the same key, until it expires. */
  lemma DecodeEncode(c: Claims, key: string, algorithm: string, now: int)
    requires "iat" in c ==> c["iat"].Instant?
    requires "exp" in c ==> c["exp"].Instant? && now <= c["exp"].seconds
    requires "sub" in c ==> c["sub"].Text?
    ensures Decode(Encode(c, key, algorithm), key, [algorithm], now) == Ok(c)
  {
  }

  /** `create_access_token`: lines 30-33 choose the expiry, lines 35-39 build the claims. */
  function CreateAccessToken(cfg: Config, userId: Uuid, expiresDelta: Option<int>, t1: int, t2: int): (r: Token)
    requires t1 <= t2  // t1 is the clock read for `exp`, t2 the later one for `iat`
    ensures r.Signed? && r.key == cfg.secretKey && r.algorithm == cfg.algorithm
    ensures r.claims.Keys == {"sub", "exp", "iat"}
    ensures r.claims["sub"] == Text(Format(userId))
    ensures r.claims["iat"] == Instant(t2)
    ensures expiresDelta.Some? && expiresDelta.value != 0 ==>
      r.claims["exp"] == Instant(t1 + expiresDelta.value)
    ensures expiresDelta.None? || expiresDelta.value == 0 ==>
      r.claims["exp"] == Instant(t1 + cfg.expirationMinutes * 60)
  {
    var expire := ExpiryOf(cfg, expiresDelta, t1);
    var toEncode := map["sub" := Text(Format(userId)), "exp" := Instant(expire), "iat" := Instant(t2)];
    Encode(toEncode, cfg.secretKey, cfg.algorithm)
  }

  /** `verify_access_token`: the `sub` claim of a token that decodes, else None. */
  function VerifyAccessToken(cfg: Config, token: Token, now: int): (r: Option<string>)
    ensures Decode(token, cfg.secretKey, [cfg.algorithm], now).Err? ==> r.None?
    ensures Decode(token, cfg.secretKey, [cfg.algorithm], now).Ok? && "sub" !in token.claims ==> r.None?
    ensures r.Some? ==>
      && token.Signed? && token.key == cfg.secretKey && token.algorithm == cfg.algorithm
      && "sub" in token.claims && token.claims["sub"] == Text(r.value)
      && Decode(token, cfg.secretKey, [cfg.algorithm], now).Ok?
    ensures Decode(token, cfg.secretKey, [cfg.algorithm], now).Ok? && "sub" in token.claims ==> r.Some?
  {
    match Decode(token, cfg.secretKey, [cfg.algorithm], now)
    case Err(_) => None
    case Ok(payload) =>
      if "sub" !in payload then None
      else Some(payload["sub"].text)
  }

  /** The expiry for a token issued at `t1`: `if expires_delta:` treats a zero duration as absent. */
  function ExpiryOf(cfg: Config, expiresDelta: Option<int>, t1: int): int {
    if expiresDelta.Some? && expiresDelta.value != 0 then t1 + expiresDelta.value
    else t1 + cfg.expirationMinutes * 60
  }

  /** A freshly issued token verifies to the user's id, as text, until its expiry. */
  lemma VerifyCreatedToken(cfg: Config, userId: Uuid, expiresDelta: Option<int>, t1: int, t2: int, now: int)
    requires t1 <= t2
    requires now <= ExpiryOf(cfg, expiresDelta, t1)
    ensures VerifyAccessToken(cfg, CreateAccessToken(cfg, userId, expiresDelta, t1, t2), now) == Some(Format(userId))
  {
    var token := CreateAccessToken(cfg, userId, expiresDelta, t1, t2);
    DecodeEncode(token.claims, cfg.secretKey, cfg.algorithm, now);
  }

  /** After its expiry the same token verifies to nothing. */
  lemma ExpiredTokenRejected(cfg: Config, userId: Uuid, expiresDelta: Option<int>, t1: int, t2: int, now: int)
    requires t1 <= t2
    requires ExpiryOf(cfg, expiresDelta, t1) < now
    ensures VerifyAccessToken(cfg, CreateAccessToken(cfg, userId, expiresDelta, t1, t2), now).None?
  {
  }

  /** A token not signed with the server's key and algorithm never verifies, whatever it claims. */
  lemma ForgedTokenRejected(cfg: Config, token: Token, now: int)
    requires !token.Signed? || token.key != cfg.secretKey || token.algorithm != cfg.algorithm
    ensures VerifyAccessToken(cfg, token, now).None?
  {
  }
}
