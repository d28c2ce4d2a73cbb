/** main.py: the two authentication endpoints, POST /api/auth/login and
    GET /api/auth/me. Both are pure validations that end in a response or
    in an HTTPException. */
module AuthApi {
  import opened Wrappers
  import opened Http
  import opened PyStr
  import Security

  /** {"email", "is_admin"}. */
  datatype UserResponse = UserResponse(email: string, isAdmin: bool)

  /** {"access_token", "token_type", "user"}. */
  datatype TokenData = TokenData(accessToken: string, tokenType: string, user: UserResponse)

  /** The OAuth2 password-grant form (section 4.3.2 of RFC 6749): the
      username is the administrator's e-mail. */
  datatype LoginForm = LoginForm(username: string, password: string, grantType: Option<string>)

  const GrantTypeError := HttpException(BadRequest400, "Grant type must be password", map[])

  /** The scheme test of get_current_admin: scheme.lower() == "bearer". */
  predicate IsBearerScheme(scheme: string)
  {
    Lower(scheme) == "bearer"
  }

  /** The scheme is accepted exactly when it spells "bearer" in any mix of
      cases, so "Bearer", "BEARER" and "bearer" pass and "Basic" does not. */
  lemma BearerSchemeIff(scheme: string)
    ensures IsBearerScheme(scheme) <==>
              |scheme| == 6 && forall i :: 0 <= i < 6 ==> scheme[i] == "bearer"[i] || scheme[i] == "BEARER"[i]
    ensures IsBearerScheme("Bearer") && IsBearerScheme("BEARER") && IsBearerScheme("bearer")
    ensures !IsBearerScheme("Basic")
  {
    LowerEqualsIff(scheme, "bearer", "BEARER");
    LowerEqualsIff("Bearer", "bearer", "BEARER");
    LowerEqualsIff("BEARER", "bearer", "BEARER");
    LowerEqualsIff("bearer", "bearer", "BEARER");
  }

  /** A grant_type the login form accepts: absent, empty, or "password". */
  predicate GrantTypeAccepted(grantType: Option<string>)
  {
    grantType.None? || grantType.value == "" || grantType.value == "password"
  }

  /** login: the grant type is checked before the credentials; on success
      the token's subject is the administrator's e-mail and it expires
      ACCESS_TOKEN_EXPIRE_MINUTES after now. */
  function Login(settings: Security.Settings, jwt: Security.Jwt, form: LoginForm, now: int): (r: Result<TokenData, HttpException>)
    ensures !GrantTypeAccepted(form.grantType) ==> r == Err(GrantTypeError)
    ensures GrantTypeAccepted(form.grantType) && r.Err? ==> r.error == Unauthorized("Incorrect email or password")
    ensures r.Ok? <==>
              GrantTypeAccepted(form.grantType) &&
              form.username == settings.adminEmail && form.password == settings.adminPassword
    ensures r.Ok? ==>
              && r.value.tokenType == "bearer"
              && r.value.user == UserResponse(settings.adminEmail, true)
              && r.value.accessToken ==
                   jwt.encode(map["sub" := Security.Str(settings.adminEmail),
                                  "exp" := Security.NumericDate(now + settings.accessTokenExpireMinutes * Security.SecondsPerMinute)],
                              settings.secretKey, settings.algorithm)
  {
    if form.grantType.Some? && form.grantType.value != "" && form.grantType.value != "password" then
      Err(GrantTypeError)
    else
      match Security.AuthenticateAdmin(settings, form.username, form.password)
      case None => Err(Unauthorized("Incorrect email or password"))
      case Some(user) =>
        var expires := settings.accessTokenExpireMinutes * Security.SecondsPerMinute;
        var token := Security.CreateAccessToken(settings, jwt, map["sub" := Security.Str(user.email)], Some(expires), now);
        Ok(TokenData(token, "bearer", UserResponse(user.email, user.isAdmin)))
  }

  /** get_current_admin: the Authorization header must be present and
      non-empty, split into exactly two words, name the Bearer scheme in any
      case, and carry a token that verifies; each failure is a 401 with the
      Bearer challenge, checked in that order. */
  function GetCurrentAdmin(settings: Security.Settings, jwt: Security.Jwt, authorization: Option<string>, now: int)
    : (r: Result<UserResponse, HttpException>)
    ensures r.Err? ==> r.error.statusCode == Unauthorized401 && r.error.headers == BearerChallenge
    ensures authorization.None? || authorization.value == "" ==> r == Err(Unauthorized("Not authenticated"))
    ensures authorization.Some? && authorization.value != "" ==>
              var parts := Split(authorization.value);
              && (|parts| != 2 ==> r == Err(Unauthorized("Invalid authorization header format")))
              && (|parts| == 2 && !IsBearerScheme(parts[0]) ==> r == Err(Unauthorized("Invalid authentication scheme")))
              && (|parts| == 2 && IsBearerScheme(parts[0]) ==>
                    r == match Security.VerifyToken(settings, jwt, parts[1], now)
                         case None => Err(Unauthorized("Invalid token"))
                         case Some(user) => Ok(UserResponse(user.email, true)))
  {
    if authorization.None? || authorization.value == "" then
      Err(Unauthorized("Not authenticated"))
    else
      var parts := Split(authorization.value);
      if |parts| != 2 then
        Err(Unauthorized("Invalid authorization header format"))
      else
        var scheme, token := parts[0], parts[1];
        if !IsBearerScheme(scheme) then
          Err(Unauthorized("Invalid authentication scheme"))
        else
          match Security.VerifyToken(settings, jwt, token, now)
          case None => Err(Unauthorized("Invalid token"))
          case Some(user) => Ok(UserResponse(user.email, user.isAdmin))
  }

  /** A header that is not empty but holds only whitespace is present, so
      it fails as a malformed header rather than as a missing one. */
  lemma BlankHeaderIsMalformed(settings: Security.Settings, jwt: Security.Jwt, header: string, now: int)
    requires header != "" && AllSpace(header)
    ensures GetCurrentAdmin(settings, jwt, Some(header), now) == Err(Unauthorized("Invalid authorization header format"))
  {
    SplitAllSpace(header);
  }

  /** A header made of a Bearer scheme in any case and a token, with any
      whitespace before, between (at least one character) and after, is
      decided by token verification alone. */
  lemma WellFormedHeaderDelegates(settings: Security.Settings, jwt: Security.Jwt,
                                  before: string, scheme: string, between: string, token: string, after: string, now: int)
    requires AllSpace(before) && AllSpace(between) && AllSpace(after) && between != []
    requires IsWord(scheme) && IsWord(token) && IsBearerScheme(scheme)
    ensures GetCurrentAdmin(settings, jwt, Some(before + scheme + between + token + after), now) ==
              match Security.VerifyToken(settings, jwt, token, now)
              case None => Err(Unauthorized("Invalid token"))
              case Some(user) => Ok(UserResponse(user.email, true))
  {
    SplitTwoWords(before, scheme, between, token, after);
  }

  /** Conversely, a header that is accepted consists of exactly a Bearer
      scheme and a token that verifies, separated by whitespace and possibly
      surrounded by it. */
  lemma AcceptedHeaderShape(settings: Security.Settings, jwt: Security.Jwt, header: string, now: int)
    requires GetCurrentAdmin(settings, jwt, Some(header), now).Ok?
    ensures var parts, gaps := Split(header), SplitGaps(header);
            && |parts| == 2 && |gaps| == 3
            && header == gaps[0] + parts[0] + gaps[1] + parts[1] + gaps[2]
            && AllSpace(gaps[0]) && AllSpace(gaps[1]) && AllSpace(gaps[2]) && gaps[1] != []
            && IsWord(parts[0]) && IsWord(parts[1]) && IsBearerScheme(parts[0])
            && Security.VerifyToken(settings, jwt, parts[1], now).Some?
  {
    SplitTwoShape(header);
  }

  /** The login flow end to end: with a JWT library that honours "exp" and
      produces whitespace-free tokens, the token that login returns, sent back
      as "Bearer <token>", identifies the administrator until
      ACCESS_TOKEN_EXPIRE_MINUTES have passed and is refused after that. */
  lemma LoginTokenGrantsAccess(settings: Security.Settings, jwt: Security.Jwt, form: LoginForm, issuedAt: int, now: int)
    requires Security.HonoursExpiry(jwt, settings.secretKey, settings.algorithm)
    requires forall subject: string, exp: int ::
               IsWord(jwt.encode(Security.SubjectClaims(subject, exp), settings.secretKey, settings.algorithm))
    requires Login(settings, jwt, form, issuedAt).Ok?
    ensures GetCurrentAdmin(settings, jwt, Some("Bearer " + Login(settings, jwt, form, issuedAt).value.accessToken), now) ==
              if now <= issuedAt + settings.accessTokenExpireMinutes * Security.SecondsPerMinute
              then Ok(UserResponse(settings.adminEmail, true))
              else Err(Unauthorized("Invalid token"))
  {
    var token := LoginToken(settings, jwt, form, issuedAt);
    LoginTokenVerifies(settings, jwt, form, issuedAt, now);
    BearerHeaderDelegates(settings, jwt, token, now);
  }

  /** The header "Bearer <token>" that a client builds from a token. */
  lemma BearerHeaderDelegates(settings: Security.Settings, jwt: Security.Jwt, token: string, now: int)
    requires IsWord(token)
    ensures GetCurrentAdmin(settings, jwt, Some("Bearer " + token), now) ==
              match Security.VerifyToken(settings, jwt, token, now)
              case None => Err(Unauthorized("Invalid token"))
              case Some(user) => Ok(UserResponse(user.email, true))
  {
    BearerSchemeIff("Bearer");
    WellFormedHeaderDelegates(settings, jwt, "", "Bearer", " ", token, "", now);
    assert "" + "Bearer" + " " + token + "" == "Bearer " + token;
  }

  /** The token of a successful login is a single word, and it verifies to
      the administrator up to its expiry instant and not after. */
  lemma LoginTokenVerifies(settings: Security.Settings, jwt: Security.Jwt, form: LoginForm, issuedAt: int, now: int)
    requires Security.HonoursExpiry(jwt, settings.secretKey, settings.algorithm)
    requires forall subject: string, exp: int ::
               IsWord(jwt.encode(Security.SubjectClaims(subject, exp), settings.secretKey, settings.algorithm))
    requires Login(settings, jwt, form, issuedAt).Ok?
    ensures IsWord(LoginToken(settings, jwt, form, issuedAt))
    ensures Security.VerifyToken(settings, jwt, LoginToken(settings, jwt, form, issuedAt), now) ==
              if now <= issuedAt + settings.accessTokenExpireMinutes * Security.SecondsPerMinute
              then Some(Security.AdminUser(settings.adminEmail, true))
              else None
  {
    var expires := settings.accessTokenExpireMinutes * Security.SecondsPerMinute;
    var token := LoginToken(settings, jwt, form, issuedAt);
    var claims := Security.ClaimsToEncode(settings, map["sub" := Security.Str(settings.adminEmail)], Some(expires), issuedAt);
    assert claims == Security.SubjectClaims(settings.adminEmail, issuedAt + expires);
    assert token == jwt.encode(claims, settings.secretKey, settings.algorithm);
    Security.IssuedTokenVerifies(settings, jwt, settings.adminEmail, Some(expires), issuedAt, now);
    assert Security.TokenLifetime(settings, Some(expires)) == expires;
  }

  /** The access token of a successful login is the one create_access_token
      issues for the administrator's e-mail with the configured lifetime. */
  function LoginToken(settings: Security.Settings, jwt: Security.Jwt, form: LoginForm, issuedAt: int): (token: string)
    requires Login(settings, jwt, form, issuedAt).Ok?
    ensures token == Login(settings, jwt, form, issuedAt).value.accessToken
    ensures token == Security.CreateAccessToken(settings, jwt, map["sub" := Security.Str(settings.adminEmail)],
                                                Some(settings.accessTokenExpireMinutes * Security.SecondsPerMinute), issuedAt)
  {
    Login(settings, jwt, form, issuedAt).value.accessToken
  }
}
