/**
 * The authentication guard: a route is protected when its handler or its
 * controller is marked `Protected()`; a protected request must carry
 * `Authorization: <scheme> <access token>` naming an existing user, who is
 * then attached to the request. Every failure is the same 401.
 */
module Guard {
  import opened Common
  import opened Codec
  import opened Crypto
  import opened JwtService
  import opened Users

  /** The fields joined back with `sep` between them. */
  function Join(fields: seq<string>, sep: char): string
    decreases |fields|
  {
    if |fields| == 0 then ""
    else if |fields| == 1 then fields[0]
    else fields[0] + [sep] + Join(fields[1..], sep)
  }

  /** `s.split(sep)`: the maximal runs between separators, empty ones included. */
  function Split(s: string, sep: char): (fields: seq<string>)
    ensures |fields| >= 1
    ensures forall i :: 0 <= i < |fields| ==> sep !in fields[i]
    ensures Join(fields, sep) == s
    decreases |s|
  {
    if |s| == 0 then [""]
    else
      var rest := Split(s[1..], sep);
      if s[0] == sep then
        assert s == [sep] + s[1..];
        [""] + rest
      else
        var fields := [[s[0]] + rest[0]] + rest[1..];
        assert fields[1..] == rest[1..];
        assert sep !in fields[0];
        fields
  }

  /** Splitting undoes joining fields that hold no separator. */
  lemma {:induction false} SplitJoin(fields: seq<string>, sep: char)
    requires |fields| >= 1
    requires forall i :: 0 <= i < |fields| ==> sep !in fields[i]
    ensures Split(Join(fields, sep), sep) == fields
    decreases |Join(fields, sep)|
  {
    var f := fields[0];
    if |fields| == 1 {
      if |f| > 0 {
        assert Join([f[1..]], sep) == f[1..];
        SplitJoin([f[1..]], sep);
        assert f[1..] == Join(fields, sep)[1..];
        assert [f[0]] + f[1..] == f;
      }
    } else if |f| == 0 {
      assert Join(fields, sep) == [sep] + Join(fields[1..], sep);
      SplitJoin(fields[1..], sep);
      assert [""] + fields[1..] == fields;
    } else {
      var tail := [f[1..]] + fields[1..];
      assert forall i :: 0 <= i < |tail| ==> sep !in tail[i] by {
        forall i | 0 <= i < |tail|
          ensures sep !in tail[i]
        {
          if i == 0 {
            assert sep !in f;
          } else {
            assert tail[i] == fields[i];
          }
        }
      }
      assert tail[1..] == fields[1..];
      assert Join(tail, sep) == f[1..] + [sep] + Join(fields[1..], sep);
      assert Join(fields, sep) == [f[0]] + Join(tail, sep);
      SplitJoin(tail, sep);
      assert Join(fields, sep)[1..] == Join(tail, sep);
      assert [f[0]] + f[1..] == f;
      assert [[f[0]] + tail[0]] + tail[1..] == fields;
    }
  }

  /**
   * `extractAccessTokenFromAuthorizationHeader`: nothing for a missing or
   * empty header, else the second space-separated field, which is missing
   * when the header holds no space.
   */
  function ExtractAccessToken(authorization: Option<string>): (token: Option<string>)
    ensures authorization.None? || authorization == Some("") ==> token.None?
    ensures token.Some? ==> ' ' !in token.value
  {
    if authorization.None? || authorization.value == "" then None
    else
      var fields := Split(authorization.value, ' ');
      if |fields| > 1 then Some(fields[1]) else None
  }

  /** Of a header made of space-free fields, the second field is taken; the rest is ignored. */
  lemma ExtractSecondField(fields: seq<string>)
    requires |fields| >= 2
    requires forall i :: 0 <= i < |fields| ==> ' ' !in fields[i]
    ensures ExtractAccessToken(Some(Join(fields, ' '))) == Some(fields[1])
  {
    SplitJoin(fields, ' ');
  }

  /** `Bearer <token>` yields the token when it holds no space. */
  lemma BearerToken(token: string)
    requires ' ' !in token
    ensures ExtractAccessToken(Some("Bearer " + token)) == Some(token)
  {
    ExtractSecondField(["Bearer", token]);
    assert Join(["Bearer", token], ' ') == "Bearer " + token;
  }

  /** A header holding no space has no second field: no token. */
  lemma NoSpaceNoToken(header: string)
    requires ' ' !in header
    ensures ExtractAccessToken(Some(header)) == None
  {
    if header != "" {
      SplitJoin([header], ' ');
    }
  }

  /** `Bearer  <token>` (two spaces) yields the empty field, which the guard refuses. */
  lemma DoubleSpaceEmptyToken(token: string)
    requires ' ' !in token
    ensures ExtractAccessToken(Some("Bearer  " + token)) == Some("")
  {
    var fields := ["Bearer", "", token];
    assert fields[1..] == ["", token] && fields[1..][1..] == [token];
    assert Join([token], ' ') == token;
    assert Join(["", token], ' ') == "" + [' '] + token;
    assert Join(fields, ' ') == "Bearer" + [' '] + ("" + [' '] + token);
    assert "Bearer" + [' '] + ("" + [' '] + token) == "Bearer  " + token;
    ExtractSecondField(fields);
  }

  /** `methodProtectedStatus || controllerProtectedStatus` over absent/true/false metadata. */
  function ProtectedStatus(methodStatus: Option<bool>, controllerStatus: Option<bool>): (r: Option<bool>)
    ensures r == Some(true) <==> methodStatus == Some(true) || controllerStatus == Some(true)
  {
    if methodStatus == Some(true) then methodStatus else controllerStatus
  }

  /** `Public()` on a handler does not lift `Protected()` on its controller. */
  lemma PublicHandlerStaysProtected(controllerStatus: Option<bool>)
    requires controllerStatus == Some(true)
    ensures ProtectedStatus(Some(false), controllerStatus) == Some(true)
  {
  }

  /**
   * The body of the `try` for a protected route: the user named by the
   * access token's `sub`, without password; any failure is Unauthorized.
   */
  function Authenticate(cfg: JwtConfig, users: UserTable, authorization: Option<string>): (r: Result<User>)
    ensures r.Err? ==> r.error == Unauthorized
    ensures r.Ok? ==> r.value.password.None?
  {
    var token := ExtractAccessToken(authorization);
    if token.None? || token.value == "" then Err(Unauthorized)
    else
      var decoded := VerifyAccessToken(cfg, token.value);
      if decoded.Err? then Err(Unauthorized)
      else
        var user := FindUser(users, decoded.value.sub, false);
        if user.None? then Err(Unauthorized) else Ok(user.value)
  }

  /** Signed tokens are made of code characters, none of which is a space. */
  lemma CodeTextHasNoSpace(token: string)
    requires IsCodeText(token)
    ensures ' ' !in token
  {
    forall i | 0 <= i < |token|
      ensures token[i] != ' '
    {
      assert IsCodeChar(token[i]);
    }
  }

  /** A bearer access token of an existing user authenticates exactly that user. */
  lemma AuthenticateSignedToken(cfg: JwtConfig, users: UserTable, c: Claims, expiresIn: Option<int>)
    requires c.sub in users.rows
    ensures var token := SignAccessToken(cfg, c, expiresIn).token;
      Authenticate(cfg, users, Some("Bearer " + token)) == Ok(Present(users.rows[c.sub], false))
  {
    var token := SignAccessToken(cfg, c, expiresIn).token;
    CodeTextHasNoSpace(token);
    BearerToken(token);
  }

  /**
   * Authentication only succeeds for a header whose token is the access
   * secret's signature of claims naming the user returned.
   */
  lemma AuthenticateSound(cfg: JwtConfig, users: UserTable, authorization: Option<string>)
    requires Authenticate(cfg, users, authorization).Ok?
    ensures var token := ExtractAccessToken(authorization);
      && token.Some?
      && exists c :: && token.value == Sign(c, cfg.accessTokenSecret)
                     && c.sub in users.rows
                     && Authenticate(cfg, users, authorization).value == Present(users.rows[c.sub], false)
  {
    var token := ExtractAccessToken(authorization);
    var c := VerifyAccessToken(cfg, token.value).value;
    assert token.value == Sign(c, cfg.accessTokenSecret) && c.sub in users.rows;
  }

  /** A refresh token is not an access token when the two secrets differ. */
  lemma RefreshTokenRefused(cfg: JwtConfig, users: UserTable, c: Claims)
    requires cfg.accessTokenSecret != cfg.refreshTokenSecret
    ensures Authenticate(cfg, users, Some("Bearer " + SignRefreshToken(cfg, c, None).token)) == Err(Unauthorized)
  {
    var token := SignRefreshToken(cfg, c, None).token;
    CodeTextHasNoSpace(token);
    BearerToken(token);
    NoCrossKindVerification(cfg, c, None);
  }

  /** The incoming request: its Authorization header and the user the guard attaches. */
  class Request {
    const authorization: Option<string>
    var user: Option<User>

    constructor (authorization: Option<string>)
      ensures this.authorization == authorization && user.None?
    {
      this.authorization := authorization;
      user := None;
    }
  }

  class AuthGuard {
    const jwt: JwtConfig
    const users: UserStore

    constructor (jwt: JwtConfig, users: UserStore)
      ensures this.jwt == jwt && this.users == users
    {
      this.jwt := jwt;
      this.users := users;
    }

    /**
     * `canActivate`: an unprotected route passes untouched; a protected one
     * passes with the authenticated user attached, or fails with 401 and the
     * request left as it was.
     */
    method CanActivate(req: Request, methodStatus: Option<bool>, controllerStatus: Option<bool>)
      returns (r: Result<bool>)
      requires users.Valid()
      modifies req
      ensures ProtectedStatus(methodStatus, controllerStatus) != Some(true) ==> r == Ok(true) && req.user == old(req.user)
      ensures ProtectedStatus(methodStatus, controllerStatus) == Some(true) ==>
        var auth := Authenticate(jwt, users.Value(), req.authorization);
        && (auth.Err? ==> r == Err(Unauthorized) && req.user == old(req.user))
        && (auth.Ok? ==> r == Ok(true) && req.user == Some(auth.value))
    {
      var isProtected := ProtectedStatus(methodStatus, controllerStatus);
      if isProtected != Some(true) {
        return Ok(true);
      }

      var token := ExtractAccessToken(req.authorization);
      if token.None? || token.value == "" {
        return Err(Unauthorized);
      }

      var decodedToken := VerifyAccessToken(jwt, token.value);
      if decodedToken.Err? {
        return Err(Unauthorized);
      }

      var user := users.FindOne(decodedToken.value.sub, false);
      if user.None? {
        return Err(Unauthorized);
      }

      req.user := user;
      r := Ok(true);
    }
  }
}
