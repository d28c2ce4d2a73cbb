/** security.py: the administrator credential check, access-token issuance
    and access-token verification. The JWT library (python-jose) is not
    modelled: its encode and decode functions are parameters (a Jwt value),
    and the wall clock is an integer "now" in seconds. */
module Security {
  import opened Wrappers

  /** The settings of config.py, fixed for the life of the process. */
  datatype Settings = Settings(
    adminEmail: string,
    adminPassword: string,
    secretKey: string,
    algorithm: string,
    accessTokenExpireMinutes: int)

  /** A JSON value of a JWT claim set, as far as this module uses one. A
      datetime placed under "exp" is serialised as a NumericDate (seconds). */
  datatype Claim = Str(s: string) | NumericDate(seconds: int) | Null

  type Claims = map<string, Claim>

  /** python-jose's jwt.encode(claims, key, algorithm) and
      jwt.decode(token, key, algorithms, at time now); decode yields None
      wherever python-jose raises a JWTError (bad signature, malformed
      token, expired "exp", a "sub" that is not a string). */
  datatype Jwt = Jwt(
    encode: (Claims, string, string) -> string,
    decode: (string, string, string, int) -> Option<Claims>)

  /** The dictionary {"email": ..., "is_admin": ...} that authenticate_admin
      and verify_token return. */
  datatype AdminUser = AdminUser(email: string, isAdmin: bool)

  const SecondsPerMinute := 60

  /** authenticate_admin: plain equality against the configured identity;
      False (here None) otherwise. */
  function AuthenticateAdmin(settings: Settings, email: string, password: string): (user: Option<AdminUser>)
    ensures user.Some? <==> email == settings.adminEmail && password == settings.adminPassword
    ensures user.Some? ==> user.value.email == email && user.value.isAdmin
  {
    if email == settings.adminEmail && password == settings.adminPassword then
      Some(AdminUser(email, true))
    else
      None
  }

  /** The lifetime create_access_token gives a token, in seconds: the
      expires_delta when it is given and truthy (a zero timedelta is falsy),
      otherwise ACCESS_TOKEN_EXPIRE_MINUTES. */
  function TokenLifetime(settings: Settings, expiresDelta: Option<int>): (seconds: int)
    ensures expiresDelta.Some? && expiresDelta.value != 0 ==> seconds == expiresDelta.value
    ensures expiresDelta.None? || expiresDelta.value == 0 ==>
              seconds == settings.accessTokenExpireMinutes * SecondsPerMinute
  {
    match expiresDelta
    case Some(delta) => if delta != 0 then delta else settings.accessTokenExpireMinutes * SecondsPerMinute
    case None => settings.accessTokenExpireMinutes * SecondsPerMinute
  }

  /** The claim set create_access_token encodes: a copy of the caller's
      data with "exp" set to now plus the token lifetime. */
  function ClaimsToEncode(settings: Settings, data: Claims, expiresDelta: Option<int>, now: int): (claims: Claims)
    ensures claims.Keys == data.Keys + {"exp"}
    ensures forall k :: k in data && k != "exp" ==> claims[k] == data[k]
    ensures claims["exp"] == NumericDate(now + TokenLifetime(settings, expiresDelta))
  {
    data["exp" := NumericDate(now + TokenLifetime(settings, expiresDelta))]
  }

  /** create_access_token: the signed encoding of the caller's claims plus "exp".
      The caller's data is a value here, so it cannot be changed by the call. */
  function CreateAccessToken(settings: Settings, jwt: Jwt, data: Claims, expiresDelta: Option<int>, now: int): (token: string)
    ensures token == jwt.encode(ClaimsToEncode(settings, data, expiresDelta, now), settings.secretKey, settings.algorithm)
  {
    var toEncode := ClaimsToEncode(settings, data, expiresDelta, now);
    jwt.encode(toEncode, settings.secretKey, settings.algorithm)
  }

  /** verify_token: fails closed (None) when decoding fails or the claims
      hold no "sub"; otherwise the subject, always as an administrator. */
  function VerifyToken(settings: Settings, jwt: Jwt, token: string, now: int): (user: Option<AdminUser>)
    ensures jwt.decode(token, settings.secretKey, settings.algorithm, now).None? ==> user.None?
    ensures user.Some? <==>
              var decoded := jwt.decode(token, settings.secretKey, settings.algorithm, now);
              decoded.Some? && "sub" in decoded.value && decoded.value["sub"].Str?
    ensures user.Some? ==>
              user.value.isAdmin &&
              jwt.decode(token, settings.secretKey, settings.algorithm, now).value["sub"] == Str(user.value.email)
  {
    match jwt.decode(token, settings.secretKey, settings.algorithm, now)
    case None => None
    case Some(payload) =>
      if "sub" !in payload then None
      else
        match payload["sub"]
        case Str(email) => Some(AdminUser(email, true))
        case _ => None
  }

  /** The claim set create_access_token builds for a login: a subject and
      an expiry instant. */
  function SubjectClaims(subject: string, exp: int): Claims
  {
    map["sub" := Str(subject), "exp" := NumericDate(exp)]
  }

  /** What the JWT library guarantees for the tokens this program issues: a
      token it produced from a subject and an expiry, checked with the same
      key and algorithm, decodes to those claims up to and including the
      "exp" instant, and is refused once that instant has passed.
      python-jose refuses a token only when exp < now; section 4.1.4 of
      RFC 7519 would refuse it already at exp == now. */
  ghost predicate HonoursExpiry(jwt: Jwt, key: string, algorithm: string)
  {
    forall subject: string, exp: int, now: int ::
      jwt.decode(jwt.encode(SubjectClaims(subject, exp), key, algorithm), key, algorithm, now) ==
        if now <= exp then Some(SubjectClaims(subject, exp)) else None
  }

  /** A token issued for a subject verifies to that subject, as an
      administrator until its lifetime has elapsed, and fails closed after. */
  lemma IssuedTokenVerifies(settings: Settings, jwt: Jwt, email: string, expiresDelta: Option<int>, issuedAt: int, now: int)
    requires HonoursExpiry(jwt, settings.secretKey, settings.algorithm)
    ensures VerifyToken(settings, jwt, CreateAccessToken(settings, jwt, map["sub" := Str(email)], expiresDelta, issuedAt), now) ==
              if now <= issuedAt + TokenLifetime(settings, expiresDelta) then Some(AdminUser(email, true)) else None
  {
    var exp := issuedAt + TokenLifetime(settings, expiresDelta);
    var claims := ClaimsToEncode(settings, map["sub" := Str(email)], expiresDelta, issuedAt);
    assert claims == SubjectClaims(email, exp);
  }
}
