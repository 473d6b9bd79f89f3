/**
 * The authentication service: the refresh-session reconciliation and the
 * four flows built on it (signup, login, refresh, logout).
 *
 * Each operation is given twice: as a function from the tables before the
 * call to the answer and the tables after it (the specification the lemmas
 * below are about), and as a method of `AuthService` that changes the stores
 * step by step as the code does and is proved to agree with the function.
 */
module Auth {
  import opened Common
  import opened Crypto
  import opened JwtService
  import opened Users
  import opened Sessions

  /** The request's client fingerprint. */
  datatype AuthOptions = AuthOptions(ip: string, userAgent: string)

  datatype SignUpDto = SignUpDto(fName: string, lName: string, email: string, password: string, confirmPassword: string)

  datatype LogInDto = LogInDto(email: string, password: string)

  /** The payload handed to the reconciliation; `id` is absent on first issuance. */
  datatype RefreshPayload = RefreshPayload(id: Option<nat>, sub: nat, username: string, ip: string, userAgent: string)

  /** A flow's answer; `user` is absent in the answer to a refresh. */
  datatype AuthResult = AuthResult(
    user: Option<User>,
    accessToken: string,
    refreshToken: string,
    accessTokenExpiresIn: int,
    refreshTokenExpiresIn: int)

  /** `if (payload.id)`: JavaScript truthiness, under which the id 0 is false. */
  predicate IdTruthy(id: Option<nat>)
    ensures !IdTruthy(id) <==> id == None || id == Some(0)
  {
    id.Some? && id.value != 0
  }

  /** The access payload `{ sub, username, ip, userAgent }`: no id and no `valid` claim. */
  function AccessClaims(sub: nat, username: string, ip: string, userAgent: string): (c: Claims)
    ensures c.id.None? && c.valid.None?
    ensures c.sub == sub && c.username == username && c.ip == ip && c.userAgent == userAgent
  {
    Claims(None, sub, username, ip, userAgent, None)
  }

  /** The payload of a refresh token signed from a session row: all of the row. */
  function SessionClaims(s: Session): (c: Claims)
    ensures c.id.Some? && c.valid.Some?
    ensures Session(c.id.value, c.sub, c.username, c.ip, c.userAgent, c.valid.value) == s
  {
    Claims(Some(s.id), s.sub, s.username, s.ip, s.userAgent, Some(s.valid))
  }

  /** `getAccessToken`: an access token with the default lifetime. */
  function GetAccessToken(cfg: JwtConfig, payload: Claims): (r: TokenResult)
    ensures VerifyAccessToken(cfg, r.token) == Ok(payload)
    ensures r.expiresInMilliseconds == if cfg.isDevEnv then 86400000 else 1200000
  {
    SignAccessToken(cfg, payload, None)
  }

  // ---------------------------------------------------------------------
  // Reconciliation (retrieveRefreshToken)
  // ---------------------------------------------------------------------

  /** The row the reconciliation starts from: by id when one is given, else by fingerprint. */
  function LookupSession(t: SessionTable, p: RefreshPayload): (r: Option<Session>)
    requires SessionTableValid(t)
    ensures r.Some? ==> r.value.id in t.rows && t.rows[r.value.id] == r.value
  {
    if IdTruthy(p.id) then FindSessionById(t, p.id.value) else FindFirstSession(t, p.sub, p.ip, p.userAgent)
  }

  /**
   * The session the refresh token is signed from, and the table after:
   * an invalid row fails with SessionExpired unless `revalidate`, in which
   * case it is made valid again; no row at all creates one from the payload.
   */
  function Reconcile(t: SessionTable, p: RefreshPayload, revalidate: bool): (r: (Result<Session>, SessionTable))
    requires SessionTableValid(t)
    ensures SessionTableValid(r.1)
    ensures r.0.Ok? ==> r.0.value.valid && r.0.value.id in r.1.rows && r.1.rows[r.0.value.id] == r.0.value
    ensures t.rows.Keys <= r.1.rows.Keys
    ensures r.0.Err? ==> r.1 == t
  {
    var found := LookupSession(t, p);
    if found.Some? && !found.value.valid && !revalidate then (Err(SessionExpired), t)
    else if found.Some? && !found.value.valid then
      UpdateSessionValidFrame(t, found.value.id, true);
      UpdateSessionValid(t, found.value.id, true)
    else if found.None? then
      CreateSessionFresh(t, NewSession(p.id, p.sub, p.username, p.ip, p.userAgent, true));
      CreateSession(t, NewSession(p.id, p.sub, p.username, p.ip, p.userAgent, true))
    else (Ok(found.value), t)
  }

  /** `retrieveRefreshToken`: the reconciliation followed by signing the resolved row. */
  function RetrieveOutcome(cfg: JwtConfig, t: SessionTable, p: RefreshPayload, revalidate: bool)
    : (r: (Result<TokenResult>, SessionTable))
    requires SessionTableValid(t)
    ensures r.1 == Reconcile(t, p, revalidate).1
    ensures r.0.Err? <==> Reconcile(t, p, revalidate).0.Err?
    ensures r.0.Err? ==> r.0.error == Reconcile(t, p, revalidate).0.error
    ensures r.0.Ok? ==>
      var s := Reconcile(t, p, revalidate).0.value;
      && VerifyRefreshToken(cfg, r.0.value.token) == Ok(SessionClaims(s))
      && r.0.value.expiresInMilliseconds == 630720000000
  {
    var rec := Reconcile(t, p, revalidate);
    if rec.0.Err? then (Err(rec.0.error), rec.1)
    else (Ok(SignRefreshToken(cfg, SessionClaims(rec.0.value), None)), rec.1)
  }

  /** With an id, only the row under that id is consulted; the fingerprint plays no part. */
  lemma LookupByIdOnly(t: SessionTable, p: RefreshPayload, q: RefreshPayload)
    requires SessionTableValid(t)
    requires IdTruthy(p.id) && q.id == p.id
    ensures LookupSession(t, p) == LookupSession(t, q)
    ensures LookupSession(t, p).Some? <==> p.id.value in t.rows
    ensures LookupSession(t, p) == FindSessionById(t, p.id.value)
  {
  }

  /** Without an id, the row found has the payload's exact fingerprint, and none is found only if no row has it. */
  lemma LookupByFingerprint(t: SessionTable, p: RefreshPayload)
    requires SessionTableValid(t)
    requires !IdTruthy(p.id)
    ensures LookupSession(t, p).Some? ==> HasFingerprint(LookupSession(t, p).value, p.sub, p.ip, p.userAgent)
    ensures LookupSession(t, p).None? <==> forall k :: k in t.rows ==> !HasFingerprint(t.rows[k], p.sub, p.ip, p.userAgent)
  {
  }

  /** An invalid row without `revalidate` is SessionExpired, and nothing is written. */
  lemma ReconcileExpired(t: SessionTable, p: RefreshPayload)
    requires SessionTableValid(t)
    requires LookupSession(t, p).Some? && !LookupSession(t, p).value.valid
    ensures Reconcile(t, p, false) == (Err(SessionExpired), t)
  {
  }

  /**
   * An invalid row with `revalidate` is resurrected: exactly that row's
   * `valid` becomes true, no row is created and no other row changes.
   */
  lemma ReconcileResurrects(t: SessionTable, p: RefreshPayload)
    requires SessionTableValid(t)
    requires LookupSession(t, p).Some? && !LookupSession(t, p).value.valid
    ensures var s := LookupSession(t, p).value;
      && Reconcile(t, p, true).0 == Ok(s.(valid := true))
      && Reconcile(t, p, true).1 == t.(rows := t.rows[s.id := s.(valid := true)])
      && Reconcile(t, p, true).1.rows.Keys == t.rows.Keys
      && Reconcile(t, p, true).1.nextId == t.nextId
  {
  }

  /** A valid row is used as it is, whatever `revalidate` says. */
  lemma ReconcileReuses(t: SessionTable, p: RefreshPayload, revalidate: bool)
    requires SessionTableValid(t)
    requires LookupSession(t, p).Some? && LookupSession(t, p).value.valid
    ensures Reconcile(t, p, revalidate) == (Ok(LookupSession(t, p).value), t)
  {
  }

  /**
   * When no row is found, exactly one row is created from the payload
   * (keeping a given id), valid; on the fingerprint path it is then the only
   * row with that fingerprint, so no duplicate is added.
   */
  lemma ReconcileCreates(t: SessionTable, p: RefreshPayload, revalidate: bool)
    requires SessionTableValid(t)
    requires LookupSession(t, p).None?
    requires p.id.None? || p.id.value !in t.rows
    ensures var r := Reconcile(t, p, revalidate);
      && r.0.Ok?
      && var s := r.0.value;
      && s == Session(s.id, p.sub, p.username, p.ip, p.userAgent, true)
      && (p.id.Some? ==> s.id == p.id.value)
      && s.id !in t.rows
      && r.1.rows == t.rows[s.id := s]
      && (!IdTruthy(p.id) ==>
            forall k :: k in r.1.rows && HasFingerprint(r.1.rows[k], p.sub, p.ip, p.userAgent) ==> k == s.id)
  {
    var s := Reconcile(t, p, revalidate).0.value;
    if !IdTruthy(p.id) {
      LookupByFingerprint(t, p);
    }
  }

  /** On the id path a missing row can only be created afresh: the id is free. */
  lemma ReconcileByMissingId(t: SessionTable, p: RefreshPayload, revalidate: bool)
    requires SessionTableValid(t)
    requires IdTruthy(p.id) && p.id.value !in t.rows
    ensures Reconcile(t, p, revalidate).0.Ok?
    ensures Reconcile(t, p, revalidate).0.value.id == p.id.value
  {
    ReconcileCreates(t, p, revalidate);
  }

  /** Without an id, reconciliation with `revalidate` never fails. */
  lemma RevalidatingReconcileSucceeds(t: SessionTable, p: RefreshPayload)
    requires SessionTableValid(t)
    requires p.id.None?
    ensures Reconcile(t, p, true).0.Ok?
  {
  }

  // ---------------------------------------------------------------------
  // The four flows
  // ---------------------------------------------------------------------

  /** `localSignup`: the answer, then the session table and the user table after. */
  function SignupOutcome(cfg: JwtConfig, t: SessionTable, u: UserTable, d: SignUpDto, o: AuthOptions, salt: nat)
    : (r: (Result<AuthResult>, SessionTable, UserTable))
    requires SessionTableValid(t) && UserTableValid(u)
    ensures r.0.Err? && r.0.error in {IncorrectConfirmPassword, UserAlreadyExists} ==> r.1 == t && r.2 == u
  {
    if d.password != d.confirmPassword then (Err(IncorrectConfirmPassword), t, u)
    else if FindUserByEmail(u, d.email, false).Some? then (Err(UserAlreadyExists), t, u)
    else
      var created := CreateUser(u, CreateUserDto(d.fName, d.lName, d.email, Hash(d.password, salt)), false);
      // The email is free, so the insert cannot violate the unique index.
      assert created.0.Ok?;
      CreateUserKeepsValid(u, CreateUserDto(d.fName, d.lName, d.email, Hash(d.password, salt)), false);
      var newUser := created.0.value;
      var access := GetAccessToken(cfg, AccessClaims(newUser.id, newUser.email, o.ip, o.userAgent));
      var refresh := RetrieveOutcome(cfg, t, RefreshPayload(None, newUser.id, newUser.email, o.ip, o.userAgent), true);
      if refresh.0.Err? then (Err(refresh.0.error), refresh.1, created.1)
      else
        (Ok(AuthResult(Some(newUser), access.token, refresh.0.value.token,
                       access.expiresInMilliseconds, refresh.0.value.expiresInMilliseconds)),
         refresh.1, created.1)
  }

  /** `localLogin`: the answer and the session table after; the user table is only read. */
  function LoginOutcome(cfg: JwtConfig, t: SessionTable, u: UserTable, c: LogInDto, o: AuthOptions)
    : (r: (Result<AuthResult>, SessionTable))
    requires SessionTableValid(t) && UserTableValid(u)
    ensures r.0.Ok? ==> r.0.value.user.Some? && r.0.value.user.value.password.None?
  {
    var user := FindUserByEmail(u, c.email, true);
    if user.None? then (Err(InvalidCredential), t)
    else if !HashVerify(user.value.password.value, c.password) then (Err(InvalidCredential), t)
    else
      var access := GetAccessToken(cfg, AccessClaims(user.value.id, user.value.email, o.ip, o.userAgent));
      var refresh := RetrieveOutcome(cfg, t, RefreshPayload(None, user.value.id, user.value.email, o.ip, o.userAgent), true);
      if refresh.0.Err? then (Err(refresh.0.error), refresh.1)
      else
        (Ok(AuthResult(Some(Strip(user.value)), access.token, refresh.0.value.token,
                       access.expiresInMilliseconds, refresh.0.value.expiresInMilliseconds)),
         refresh.1)
  }

  /**
   * The check at the head of `refreshAuth`: the decoded token is not marked
   * valid, or it was issued to another IP or user agent.
   */
  predicate FingerprintMismatch(c: Claims, o: AuthOptions)
    ensures !FingerprintMismatch(c, o) <==> c.valid == Some(true) && c.ip == o.ip && c.userAgent == o.userAgent
  {
    !c.valid.GetOr(false) || c.ip != o.ip || c.userAgent != o.userAgent
  }

  /**
   * `refreshAuth` as written: the mismatch check builds an exception that is
   * never thrown, so it has no part in the outcome; the reconciliation uses
   * the decoded id with `revalidate` false.
   */
  function RefreshOutcome(cfg: JwtConfig, t: SessionTable, token: string, o: AuthOptions)
    : (r: (Result<AuthResult>, SessionTable))
    requires SessionTableValid(t)
    ensures r.0.Ok? ==> r.0.value.user.None?
    ensures r.0.Err? ==> r.1 == t
  {
    var decoded := VerifyRefreshToken(cfg, token);
    if decoded.Err? then (Err(decoded.error), t)
    else
      var c := decoded.value;
      var access := GetAccessToken(cfg, AccessClaims(c.sub, c.username, o.ip, o.userAgent));
      var refresh := RetrieveOutcome(cfg, t, RefreshPayload(c.id, c.sub, c.username, o.ip, o.userAgent), false);
      if refresh.0.Err? then (Err(refresh.0.error), refresh.1)
      else
        (Ok(AuthResult(None, access.token, refresh.0.value.token,
                       access.expiresInMilliseconds, refresh.0.value.expiresInMilliseconds)),
         refresh.1)
  }

  /** A refresh that does throw on a fingerprint mismatch (not what the code does). */
  function HardenedRefreshOutcome(cfg: JwtConfig, t: SessionTable, token: string, o: AuthOptions)
    : (r: (Result<AuthResult>, SessionTable))
    requires SessionTableValid(t)
    ensures r.0.Ok? ==> r.0.value.user.None?
    ensures r.0.Err? ==> r.1 == t
  {
    var decoded := VerifyRefreshToken(cfg, token);
    if decoded.Ok? && FingerprintMismatch(decoded.value, o) then (Err(InvalidSessionRequest), t)
    else RefreshOutcome(cfg, t, token, o)
  }

  /** `logout`: the session named by the token's id is marked invalid. */
  function LogoutOutcome(cfg: JwtConfig, t: SessionTable, token: string): (r: (Result<bool>, SessionTable))
    requires SessionTableValid(t)
    ensures SessionTableValid(r.1)
    ensures r.0.Ok? ==> r.0.value
    ensures r.0.Err? ==> r.1 == t
  {
    var decoded := VerifyRefreshToken(cfg, token);
    if decoded.Err? then (Err(decoded.error), t)
    else if decoded.value.id.None? then (Err(InvalidQuery), t)
    else
      UpdateSessionValidFrame(t, decoded.value.id.value, false);
      var upd := UpdateSessionValid(t, decoded.value.id.value, false);
      if upd.0.Err? then (Err(upd.0.error), upd.1) else (Ok(true), upd.1)
  }

  // ---------------------------------------------------------------------
  // Properties of the flows
  // ---------------------------------------------------------------------

  /** Mismatched passwords fail first: no lookup, no user, no session. */
  lemma SignupRejectsMismatch(cfg: JwtConfig, t: SessionTable, u: UserTable, d: SignUpDto, o: AuthOptions, salt: nat)
    requires SessionTableValid(t) && UserTableValid(u)
    requires d.password != d.confirmPassword
    ensures SignupOutcome(cfg, t, u, d, o, salt) == (Err(IncorrectConfirmPassword), t, u)
  {
  }

  /** A registered email fails with UserAlreadyExists and leaves both tables as they were. */
  lemma SignupRejectsExisting(cfg: JwtConfig, t: SessionTable, u: UserTable, d: SignUpDto, o: AuthOptions, salt: nat, k: nat)
    requires SessionTableValid(t) && UserTableValid(u)
    requires d.password == d.confirmPassword
    requires k in u.rows && u.rows[k].email == d.email
    ensures SignupOutcome(cfg, t, u, d, o, salt) == (Err(UserAlreadyExists), t, u)
  {
  }

  /**
   * A successful signup stores exactly one new user with the hash of the
   * password, answers that user without its password, an access token for
   * it and a refresh token signed from a valid session row on the request's
   * fingerprint.
   */
  lemma SignupSucceeds(cfg: JwtConfig, t: SessionTable, u: UserTable, d: SignUpDto, o: AuthOptions, salt: nat)
    requires SessionTableValid(t) && UserTableValid(u)
    requires d.password == d.confirmPassword
    requires forall k :: k in u.rows ==> u.rows[k].email != d.email
    ensures var r := SignupOutcome(cfg, t, u, d, o, salt);
      && r.0.Ok?
      && var row := UserRow(u.nextId, d.fName, d.lName, d.email, Hash(d.password, salt));
      && r.2 == UserTable(u.rows[u.nextId := row], u.nextId + 1)
      && HashVerify(row.password, d.password)
      && r.0.value.user == Some(User(u.nextId, d.fName, d.lName, d.email, None))
      && VerifyAccessToken(cfg, r.0.value.accessToken) == Ok(AccessClaims(u.nextId, d.email, o.ip, o.userAgent))
      && r.0.value.accessTokenExpiresIn == (if cfg.isDevEnv then 86400000 else 1200000)
      && r.0.value.refreshTokenExpiresIn == 630720000000
      && r.1 == Reconcile(t, RefreshPayload(None, u.nextId, d.email, o.ip, o.userAgent), true).1
      && exists s :: s in r.1.rows.Values
                     && VerifyRefreshToken(cfg, r.0.value.refreshToken) == Ok(SessionClaims(s))
                     && s.valid && HasFingerprint(s, u.nextId, o.ip, o.userAgent)
  {
    var p := RefreshPayload(None, u.nextId, d.email, o.ip, o.userAgent);
    var rec := Reconcile(t, p, true);
    HashVerifyOwn(d.password, salt);
    LookupByFingerprint(t, p);
    var s := rec.0.value;
    assert s.id in rec.1.rows && rec.1.rows[s.id] == s;
    assert HasFingerprint(s, u.nextId, o.ip, o.userAgent) by {
      if LookupSession(t, p).None? {
        ReconcileCreates(t, p, true);
      }
    }
  }

  /** An unknown email or a wrong password is InvalidCredential, and no session is touched. */
  lemma LoginRejects(cfg: JwtConfig, t: SessionTable, u: UserTable, c: LogInDto, o: AuthOptions)
    requires SessionTableValid(t) && UserTableValid(u)
    requires forall k :: k in u.rows && u.rows[k].email == c.email ==> !HashVerify(u.rows[k].password, c.password)
    ensures LoginOutcome(cfg, t, u, c, o) == (Err(InvalidCredential), t)
  {
  }

  /**
   * A login with the right password answers the user without its password,
   * an access token for that user, and a refresh token signed from a valid
   * row whose fingerprint is the request's.
   */
  lemma LoginSucceeds(cfg: JwtConfig, t: SessionTable, u: UserTable, c: LogInDto, o: AuthOptions, k: nat)
    requires SessionTableValid(t) && UserTableValid(u)
    requires k in u.rows && u.rows[k].email == c.email && HashVerify(u.rows[k].password, c.password)
    ensures var r := LoginOutcome(cfg, t, u, c, o);
      && r.0.Ok?
      && r.0.value.user == Some(Present(u.rows[k], false))
      && VerifyAccessToken(cfg, r.0.value.accessToken) == Ok(AccessClaims(k, c.email, o.ip, o.userAgent))
      && r.0.value.accessTokenExpiresIn == (if cfg.isDevEnv then 86400000 else 1200000)
      && r.0.value.refreshTokenExpiresIn == 630720000000
      && r.1 == Reconcile(t, RefreshPayload(None, k, c.email, o.ip, o.userAgent), true).1
      && exists s :: s in r.1.rows.Values
                     && VerifyRefreshToken(cfg, r.0.value.refreshToken) == Ok(SessionClaims(s))
                     && s.valid && HasFingerprint(s, k, o.ip, o.userAgent)
  {
    var p := RefreshPayload(None, k, c.email, o.ip, o.userAgent);
    var rec := Reconcile(t, p, true);
    LookupByFingerprint(t, p);
    var s := rec.0.value;
    assert s.id in rec.1.rows && rec.1.rows[s.id] == s;
    assert HasFingerprint(s, k, o.ip, o.userAgent) by {
      if LookupSession(t, p).None? {
        ReconcileCreates(t, p, true);
      }
    }
  }

  /**
   * Login reopens a logged-out session: an invalid row on the request's
   * fingerprint is made valid again instead of a new row being created.
   */
  lemma LoginResurrects(cfg: JwtConfig, t: SessionTable, u: UserTable, c: LogInDto, o: AuthOptions, k: nat)
    requires SessionTableValid(t) && UserTableValid(u)
    requires k in u.rows && u.rows[k].email == c.email && HashVerify(u.rows[k].password, c.password)
    requires var p := RefreshPayload(None, k, c.email, o.ip, o.userAgent);
             LookupSession(t, p).Some? && !LookupSession(t, p).value.valid
    ensures var s := LookupSession(t, RefreshPayload(None, k, c.email, o.ip, o.userAgent)).value;
      LoginOutcome(cfg, t, u, c, o).1 == t.(rows := t.rows[s.id := s.(valid := true)])
  {
    ReconcileResurrects(t, RefreshPayload(None, k, c.email, o.ip, o.userAgent));
  }

  /** A token that does not verify under the refresh secret fails before any session lookup. */
  lemma RefreshRejectsBadToken(cfg: JwtConfig, t: SessionTable, token: string, o: AuthOptions)
    requires SessionTableValid(t)
    requires VerifyRefreshToken(cfg, token).Err?
    ensures RefreshOutcome(cfg, t, token, o) == (Err(TokenInvalid), t)
  {
  }

  /**
   * The fingerprint check does not stop the flow: a refresh token of a
   * valid session succeeds from any IP and user agent, even when its own
   * `valid` claim is false, and the new refresh token is signed from the
   * stored row (with the row's fingerprint, not the request's).
   */
  lemma RefreshIgnoresFingerprintMismatch(cfg: JwtConfig, t: SessionTable, s: Session, o: AuthOptions)
    requires SessionTableValid(t)
    requires s.id != 0 && s.id in t.rows && t.rows[s.id].valid
    ensures var token := SignRefreshToken(cfg, SessionClaims(s), None).token;
      && var r := RefreshOutcome(cfg, t, token, o);
      && r.0.Ok? && r.1 == t
      && VerifyRefreshToken(cfg, r.0.value.refreshToken) == Ok(SessionClaims(t.rows[s.id]))
      && VerifyAccessToken(cfg, r.0.value.accessToken) == Ok(AccessClaims(s.sub, s.username, o.ip, o.userAgent))
  {
    var p := RefreshPayload(Some(s.id), s.sub, s.username, o.ip, o.userAgent);
    ReconcileReuses(t, p, false);
  }

  /** A refresh naming an invalid session is SessionExpired: refresh never resurrects. */
  lemma RefreshOfInvalidSessionExpires(cfg: JwtConfig, t: SessionTable, token: string, o: AuthOptions)
    requires SessionTableValid(t)
    requires VerifyRefreshToken(cfg, token).Ok?
    requires var c := VerifyRefreshToken(cfg, token).value;
             IdTruthy(c.id) && c.id.value in t.rows && !t.rows[c.id.value].valid
    ensures RefreshOutcome(cfg, t, token, o) == (Err(SessionExpired), t)
  {
    var c := VerifyRefreshToken(cfg, token).value;
    ReconcileExpired(t, RefreshPayload(c.id, c.sub, c.username, o.ip, o.userAgent));
  }

  /** The hardened refresh fails exactly on a mismatch and otherwise agrees with `refreshAuth` as written. */
  lemma HardenedRefreshRejectsMismatch(cfg: JwtConfig, t: SessionTable, token: string, o: AuthOptions)
    requires SessionTableValid(t)
    ensures var decoded := VerifyRefreshToken(cfg, token);
      if decoded.Ok? && FingerprintMismatch(decoded.value, o)
      then HardenedRefreshOutcome(cfg, t, token, o) == (Err(InvalidSessionRequest), t)
      else HardenedRefreshOutcome(cfg, t, token, o) == RefreshOutcome(cfg, t, token, o)
  {
  }

  /**
   * After a successful verify, logout marks exactly the row with the
   * decoded id invalid and answers true; a token that does not verify
   * changes nothing.
   */
  lemma LogoutInvalidates(cfg: JwtConfig, t: SessionTable, token: string)
    requires SessionTableValid(t)
    ensures var decoded := VerifyRefreshToken(cfg, token);
      && (decoded.Err? ==> LogoutOutcome(cfg, t, token) == (Err(TokenInvalid), t))
      && (decoded.Ok? && decoded.value.id.Some? && decoded.value.id.value in t.rows ==>
            var i := decoded.value.id.value;
            LogoutOutcome(cfg, t, token) == (Ok(true), t.(rows := t.rows[i := t.rows[i].(valid := false)])))
  {
  }

  /** Logging out and then refreshing with the same token fails with SessionExpired. */
  lemma RefreshAfterLogoutExpires(cfg: JwtConfig, t: SessionTable, token: string, o: AuthOptions)
    requires SessionTableValid(t)
    requires LogoutOutcome(cfg, t, token).0.Ok?
    requires IdTruthy(VerifyRefreshToken(cfg, token).value.id)
    ensures RefreshOutcome(cfg, LogoutOutcome(cfg, t, token).1, token, o).0 == Err(SessionExpired)
  {
    var c := VerifyRefreshToken(cfg, token).value;
    var t' := LogoutOutcome(cfg, t, token).1;
    ReconcileExpired(t', RefreshPayload(c.id, c.sub, c.username, o.ip, o.userAgent));
  }

  // ---------------------------------------------------------------------
  // The service
  // ---------------------------------------------------------------------

  class AuthService {
    const jwt: JwtConfig
    const sessions: SessionStore
    const users: UserStore

    ghost predicate Valid()
      reads this, sessions, users
    {
      sessions.Valid() && users.Valid()
    }

    constructor (jwt: JwtConfig, sessions: SessionStore, users: UserStore)
      requires sessions.Valid() && users.Valid()
      ensures Valid()
      ensures this.jwt == jwt && this.sessions == sessions && this.users == users
    {
      this.jwt := jwt;
      this.sessions := sessions;
      this.users := users;
    }

    method RetrieveRefreshToken(payload: RefreshPayload, revalidate: bool) returns (r: Result<TokenResult>)
      requires Valid()
      modifies sessions
      ensures Valid()
      ensures (r, sessions.Value()) == RetrieveOutcome(jwt, old(sessions.Value()), payload, revalidate)
    {
      var refreshTokenDB: Option<Session>;
      if IdTruthy(payload.id) {
        refreshTokenDB := sessions.FindById(payload.id.value);
      } else {
        refreshTokenDB := sessions.FindByTriple(payload.sub, payload.ip, payload.userAgent);
      }
      assert refreshTokenDB == LookupSession(old(sessions.Value()), payload);

      if refreshTokenDB.Some? && !refreshTokenDB.value.valid && !revalidate {
        return Err(SessionExpired);
      }

      if refreshTokenDB.Some? && !refreshTokenDB.value.valid {
        // The row was just read, so the update finds it.
        var updated := sessions.SetValid(refreshTokenDB.value.id, true);
        refreshTokenDB := Some(updated.value);
      }

      if refreshTokenDB.None? {
        var created := sessions.Create(
          NewSession(payload.id, payload.sub, payload.username, payload.ip, payload.userAgent, true));
        if created.Err? {
          return Err(created.error);
        }
        refreshTokenDB := Some(created.value);
      }

      r := Ok(SignRefreshToken(jwt, SessionClaims(refreshTokenDB.value), None));
    }

    method LocalSignup(userDetails: SignUpDto, options: AuthOptions, salt: nat) returns (r: Result<AuthResult>)
      requires Valid()
      modifies sessions, users
      ensures Valid()
      ensures (r, sessions.Value(), users.Value())
           == SignupOutcome(jwt, old(sessions.Value()), old(users.Value()), userDetails, options, salt)
    {
      if userDetails.password != userDetails.confirmPassword {
        return Err(IncorrectConfirmPassword);
      }

      var user := users.FindOneByEmail(userDetails.email, false);
      if user.Some? {
        return Err(UserAlreadyExists);
      }

      var hash := Hash(userDetails.password, salt);
      // The email was just found free, so the insert succeeds.
      var created := users.Create(CreateUserDto(userDetails.fName, userDetails.lName, userDetails.email, hash), false);
      var newUser := created.value;

      var access := GetAccessToken(jwt, AccessClaims(newUser.id, newUser.email, options.ip, options.userAgent));
      var refresh := RetrieveRefreshToken(RefreshPayload(None, newUser.id, newUser.email, options.ip, options.userAgent), true);
      if refresh.Err? {
        return Err(refresh.error);
      }

      r := Ok(AuthResult(Some(newUser), access.token, refresh.value.token,
                         access.expiresInMilliseconds, refresh.value.expiresInMilliseconds));
    }

    method LocalLogin(userCredentials: LogInDto, options: AuthOptions) returns (r: Result<AuthResult>)
      requires Valid()
      modifies sessions
      ensures Valid()
      ensures (r, sessions.Value()) == LoginOutcome(jwt, old(sessions.Value()), users.Value(), userCredentials, options)
    {
      var user := users.FindOneByEmail(userCredentials.email, true);
      if user.None? {
        return Err(InvalidCredential);
      }

      var isPasswordMatch := HashVerify(user.value.password.value, userCredentials.password);
      if !isPasswordMatch {
        return Err(InvalidCredential);
      }

      var access := GetAccessToken(jwt, AccessClaims(user.value.id, user.value.email, options.ip, options.userAgent));
      var refresh := RetrieveRefreshToken(RefreshPayload(None, user.value.id, user.value.email, options.ip, options.userAgent), true);
      if refresh.Err? {
        return Err(refresh.error);
      }

      var stripped := Strip(user.value);
      r := Ok(AuthResult(Some(stripped), access.token, refresh.value.token,
                         access.expiresInMilliseconds, refresh.value.expiresInMilliseconds));
    }

    method RefreshAuth(refreshToken: string, options: AuthOptions) returns (r: Result<AuthResult>)
      requires Valid()
      modifies sessions
      ensures Valid()
      ensures (r, sessions.Value()) == RefreshOutcome(jwt, old(sessions.Value()), refreshToken, options)
    {
      var decoded := VerifyRefreshToken(jwt, refreshToken);
      if decoded.Err? {
        return Err(decoded.error);
      }
      var decodedToken := decoded.value;

      if FingerprintMismatch(decodedToken, options) {
        // The InvalidSessionRequest exception is constructed here and dropped:
        // control carries on to the token issuance below.
        var unthrown := InvalidSessionRequest;
      }

      var access := GetAccessToken(jwt, AccessClaims(decodedToken.sub, decodedToken.username, options.ip, options.userAgent));
      var refresh := RetrieveRefreshToken(
        RefreshPayload(decodedToken.id, decodedToken.sub, decodedToken.username, options.ip, options.userAgent), false);
      if refresh.Err? {
        return Err(refresh.error);
      }

      r := Ok(AuthResult(None, access.token, refresh.value.token,
                         access.expiresInMilliseconds, refresh.value.expiresInMilliseconds));
    }

    /** A variant of RefreshAuth that throws the exception it builds. */
    method HardenedRefreshAuth(refreshToken: string, options: AuthOptions) returns (r: Result<AuthResult>)
      requires Valid()
      modifies sessions
      ensures Valid()
      ensures (r, sessions.Value()) == HardenedRefreshOutcome(jwt, old(sessions.Value()), refreshToken, options)
    {
      var decoded := VerifyRefreshToken(jwt, refreshToken);
      if decoded.Ok? && FingerprintMismatch(decoded.value, options) {
        return Err(InvalidSessionRequest);
      }
      r := RefreshAuth(refreshToken, options);
    }

    method Logout(refreshToken: string) returns (r: Result<bool>)
      requires Valid()
      modifies sessions
      ensures Valid()
      ensures (r, sessions.Value()) == LogoutOutcome(jwt, old(sessions.Value()), refreshToken)
    {
      var decoded := VerifyRefreshToken(jwt, refreshToken);
      if decoded.Err? {
        return Err(decoded.error);
      }
      if decoded.value.id.None? {
        // `where: { id: undefined }` is refused by the store.
        return Err(InvalidQuery);
      }
      var updated := sessions.SetValid(decoded.value.id.value, false);
      if updated.Err? {
        return Err(updated.error);
      }
      r := Ok(true);
    }
  }
}
