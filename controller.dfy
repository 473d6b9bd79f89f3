/**
 * The authentication controller: the refresh token travels only in the
 * `___refresh_token` cookie, never in a response body. Signup, login and
 * refresh set the cookie from the service's answer; logout always clears it.
 */
module Controller {
  import opened Common
  import opened Crypto
  import opened JwtService
  import opened Users
  import opened Sessions
  import opened Auth

  const RefreshCookieName: string := "___refresh_token"

  /** How long the cleared cookie is kept, in milliseconds. */
  const ClearedCookieLifetime: int := 5000

  datatype Cookie = Cookie(
    name: string, value: string, path: string, expires: int, httpOnly: bool, secure: bool, sameSite: string)

  /** A JSON body: an auth answer without its refresh token, or a message. */
  datatype Body =
    | AuthBody(user: Option<User>, accessToken: string, accessTokenExpiresIn: int, refreshTokenExpiresIn: int)
    | Message(text: string)

  datatype Response = Response(cookie: Cookie, body: Body)

  /** The refresh cookie with the attributes both helpers set. */
  function RefreshCookie(value: string, expires: int): (c: Cookie)
    ensures c.name == RefreshCookieName && c.path == "/"
    ensures c.httpOnly && c.secure && c.sameSite == "none"
  {
    Cookie(RefreshCookieName, value, "/", expires, true, true, "none")
  }

  /** `insertRefreshTokenCookieInResponse`; `now` is the clock in milliseconds. */
  function InsertRefreshTokenCookie(now: int, refreshToken: string, refreshTokenExpiresIn: int, body: Body): (r: Response)
    ensures r.cookie == RefreshCookie(refreshToken, now + refreshTokenExpiresIn)
    ensures r.body == body
  {
    Response(RefreshCookie(refreshToken, now + refreshTokenExpiresIn), body)
  }

  /** `removeRefreshTokenCookieInResponse`: an empty cookie that lapses five seconds from now. */
  function RemoveRefreshTokenCookie(now: int, body: Body): (r: Response)
    ensures r.cookie == RefreshCookie("", now + ClearedCookieLifetime)
    ensures r.body == body
  {
    Response(RefreshCookie("", now + ClearedCookieLifetime), body)
  }

  /** Setting and clearing address the same cookie, so clearing overwrites what was set. */
  lemma SetAndClearSameCookie(now: int, later: int, token: string, ttl: int, a: Body, b: Body)
    ensures var issued := InsertRefreshTokenCookie(now, token, ttl, a).cookie;
            var cleared := RemoveRefreshTokenCookie(later, b).cookie;
      && issued.name == cleared.name && issued.path == cleared.path
      && issued.(value := "", expires := cleared.expires) == cleared
  {
  }

  /** `const { refreshToken, ...restResult } = result`. */
  function RestOf(result: AuthResult): (body: Body)
    ensures body.AuthBody?
    ensures AuthResult(body.user, body.accessToken, result.refreshToken,
                       body.accessTokenExpiresIn, body.refreshTokenExpiresIn) == result
  {
    AuthBody(result.user, result.accessToken, result.accessTokenExpiresIn, result.refreshTokenExpiresIn)
  }

  /**
   * A service answer turned into a response: an error is rethrown as it
   * is; an answer puts its refresh token into the cookie, with the lifetime
   * the answer reports, and the rest into the body.
   */
  function Issue(now: int, result: Result<AuthResult>): (r: Result<Response>)
    ensures r.Err? <==> result.Err?
    ensures r.Err? ==> r.error == result.error
    ensures r.Ok? ==>
      && r.value.cookie.value == result.value.refreshToken
      && r.value.cookie.expires == now + result.value.refreshTokenExpiresIn
      && r.value.body == RestOf(result.value)
  {
    if result.Err? then Err(result.error)
    else Ok(InsertRefreshTokenCookie(now, result.value.refreshToken, result.value.refreshTokenExpiresIn, RestOf(result.value)))
  }

  /** `!refreshToken`: an absent cookie and an empty one are alike. */
  predicate CookieTruthy(cookie: Option<string>)
    ensures !CookieTruthy(cookie) <==> cookie == None || cookie == Some("")
  {
    cookie.Some? && cookie.value != ""
  }

  /** The refresh route: no cookie is Unauthorized before the service is asked. */
  function RefreshResponse(cfg: JwtConfig, t: SessionTable, cookie: Option<string>, o: AuthOptions, now: int)
    : (r: (Result<Response>, SessionTable))
    requires SessionTableValid(t)
    ensures !CookieTruthy(cookie) ==> r == (Err(Unauthorized), t)
    ensures CookieTruthy(cookie) ==>
      var outcome := RefreshOutcome(cfg, t, cookie.value, o);
      r == (Issue(now, outcome.0), outcome.1)
  {
    if !CookieTruthy(cookie) then (Err(Unauthorized), t)
    else
      var outcome := RefreshOutcome(cfg, t, cookie.value, o);
      (Issue(now, outcome.0), outcome.1)
  }

  /**
   * The logout route: the missing-cookie check builds an exception that is
   * never thrown, so an absent cookie reaches the service; whatever the
   * service answers, the cookie is cleared and only the message differs.
   */
  function LogoutResponse(cfg: JwtConfig, t: SessionTable, cookie: Option<string>, now: int)
    : (r: (Response, SessionTable))
    requires SessionTableValid(t)
    ensures r.0.cookie.value == "" && r.0.cookie.name == RefreshCookieName
    ensures r.0.body == Message("Logged out") || r.0.body == Message("Logged out with error")
    ensures r.0.body == Message("Logged out") <==> LogoutOutcome(cfg, t, cookie.GetOr("")).0.Ok?
    ensures r.0.cookie == RefreshCookie("", now + ClearedCookieLifetime)
    ensures r.1 == LogoutOutcome(cfg, t, cookie.GetOr("")).1
  {
    var outcome := LogoutOutcome(cfg, t, cookie.GetOr(""));
    var text := if outcome.0.Ok? then "Logged out" else "Logged out with error";
    (RemoveRefreshTokenCookie(now, Message(text)), outcome.1)
  }

  /** A logout without a cookie fails inside the service: "Logged out with error", nothing written. */
  lemma LogoutWithoutCookie(cfg: JwtConfig, t: SessionTable, cookie: Option<string>, now: int)
    requires SessionTableValid(t)
    requires !CookieTruthy(cookie)
    ensures LogoutResponse(cfg, t, cookie, now) == (RemoveRefreshTokenCookie(now, Message("Logged out with error")), t)
  {
    assert cookie.GetOr("") == "";
    VerifyEmpty(cfg.refreshTokenSecret);
  }

  /** The cleared cookie a logout leaves behind is refused by the refresh route. */
  lemma RefreshWithClearedCookie(cfg: JwtConfig, t: SessionTable, cookie: Option<string>, o: AuthOptions, now: int, later: int)
    requires SessionTableValid(t)
    ensures var out := LogoutResponse(cfg, t, cookie, now);
      RefreshResponse(cfg, out.1, Some(out.0.cookie.value), o, later) == (Err(Unauthorized), out.1)
  {
  }

  /** A login answered by the controller leaves the refresh token only in the cookie, and it verifies. */
  lemma LoginResponseCarriesToken(cfg: JwtConfig, t: SessionTable, u: UserTable, c: LogInDto, o: AuthOptions, now: int, k: nat)
    requires SessionTableValid(t) && UserTableValid(u)
    requires k in u.rows && u.rows[k].email == c.email && HashVerify(u.rows[k].password, c.password)
    ensures var r := Issue(now, LoginOutcome(cfg, t, u, c, o).0);
      && r.Ok?
      && r.value.body.AuthBody?
      && VerifyRefreshToken(cfg, r.value.cookie.value).Ok?
      && r.value.body.user == Some(Present(u.rows[k], false))
  {
    LoginSucceeds(cfg, t, u, c, o, k);
  }

  class AuthController {
    const service: AuthService

    constructor (service: AuthService)
      ensures this.service == service
    {
      this.service := service;
    }

    method LocalSignup(userAgent: string, ip: string, body: SignUpDto, now: int, salt: nat) returns (r: Result<Response>)
      requires service.Valid()
      modifies service.sessions, service.users
      ensures service.Valid()
      ensures var o := SignupOutcome(service.jwt, old(service.sessions.Value()), old(service.users.Value()),
                                     body, AuthOptions(ip, userAgent), salt);
        && r == Issue(now, o.0)
        && service.sessions.Value() == o.1
        && service.users.Value() == o.2
    {
      var result := service.LocalSignup(body, AuthOptions(ip, userAgent), salt);
      if result.Err? {
        return Err(result.error);
      }
      var restResult := RestOf(result.value);
      r := Ok(InsertRefreshTokenCookie(now, result.value.refreshToken, result.value.refreshTokenExpiresIn, restResult));
    }

    method LocalLogin(userAgent: string, ip: string, body: LogInDto, now: int) returns (r: Result<Response>)
      requires service.Valid()
      modifies service.sessions
      ensures service.Valid()
      ensures var o := LoginOutcome(service.jwt, old(service.sessions.Value()), service.users.Value(),
                                    body, AuthOptions(ip, userAgent));
        && r == Issue(now, o.0)
        && service.sessions.Value() == o.1
    {
      var result := service.LocalLogin(body, AuthOptions(ip, userAgent));
      if result.Err? {
        return Err(result.error);
      }
      var restResult := RestOf(result.value);
      r := Ok(InsertRefreshTokenCookie(now, result.value.refreshToken, result.value.refreshTokenExpiresIn, restResult));
    }

    method Refresh(refreshToken: Option<string>, userAgent: string, ip: string, now: int) returns (r: Result<Response>)
      requires service.Valid()
      modifies service.sessions
      ensures service.Valid()
      ensures (r, service.sessions.Value())
           == RefreshResponse(service.jwt, old(service.sessions.Value()), refreshToken, AuthOptions(ip, userAgent), now)
    {
      if !CookieTruthy(refreshToken) {
        return Err(Unauthorized);
      }
      var result := service.RefreshAuth(refreshToken.value, AuthOptions(ip, userAgent));
      if result.Err? {
        return Err(result.error);
      }
      var restResult := RestOf(result.value);
      r := Ok(InsertRefreshTokenCookie(now, result.value.refreshToken, result.value.refreshTokenExpiresIn, restResult));
    }

    method Logout(refreshToken: Option<string>, now: int) returns (r: Response)
      requires service.Valid()
      modifies service.sessions
      ensures service.Valid()
      ensures (r, service.sessions.Value()) == LogoutResponse(service.jwt, old(service.sessions.Value()), refreshToken, now)
    {
      // A missing cookie builds a BadRequestException that is never thrown;
      // the absent value goes on to the service, where verification fails.
      var result := service.Logout(refreshToken.GetOr(""));
      if result.Err? {
        return RemoveRefreshTokenCookie(now, Message("Logged out with error"));
      }
      r := RemoveRefreshTokenCookie(now, Message("Logged out"));
    }
  }
}
