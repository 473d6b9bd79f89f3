/**
 * The token service: two secrets and a development flag read once from the
 * environment, and sign/verify operations for the two token kinds.
 *
 * Access tokens live 1200 seconds (86400 in development) and refresh tokens
 * 630720000 seconds unless the caller passes its own `expiresIn`; every
 * signing also reports the lifetime in milliseconds. Access tokens use the
 * access secret and refresh tokens the refresh secret.
 */
module JwtService {
  import opened Common
  import opened Crypto

  /** The service's state, fixed by its constructor. */
  datatype JwtConfig = JwtConfig(accessTokenSecret: string, refreshTokenSecret: string, isDevEnv: bool)

  /** The constructor: the two secrets and NODE_ENV as read from the configuration. */
  function NewJwtConfig(accessSecret: string, refreshSecret: string, nodeEnv: Option<string>): (cfg: JwtConfig)
    ensures cfg.accessTokenSecret == accessSecret && cfg.refreshTokenSecret == refreshSecret
    ensures cfg.isDevEnv <==> nodeEnv == Some("development")
  {
    JwtConfig(accessSecret, refreshSecret, nodeEnv == Some("development"))
  }

  const AccessTtlDevelopment: int := 86400
  const AccessTtlProduction: int := 1200
  const RefreshTtl: int := 630720000

  /**
   * The token and the effective options: `expiresIn` in seconds and
   * `expiresInMilliseconds`.
   */
  datatype TokenResult = TokenResult(token: string, expiresIn: int, expiresInMilliseconds: int)

  /** `{ expiresIn: default, ...options }`: a supplied `expiresIn` wins. */
  function EffectiveExpiresIn(default: int, expiresIn: Option<int>): (ttl: int)
    ensures expiresIn.Some? ==> ttl == expiresIn.value
    ensures expiresIn.None? ==> ttl == default
  {
    expiresIn.GetOr(default)
  }

  function SignAccessToken(cfg: JwtConfig, payload: Claims, expiresIn: Option<int>): (r: TokenResult)
    ensures r.expiresIn == EffectiveExpiresIn(if cfg.isDevEnv then AccessTtlDevelopment else AccessTtlProduction, expiresIn)
    ensures r.expiresInMilliseconds == r.expiresIn * 1000
    ensures VerifyAccessToken(cfg, r.token) == Ok(payload)
  {
    var ttl := EffectiveExpiresIn(if cfg.isDevEnv then AccessTtlDevelopment else AccessTtlProduction, expiresIn);
    VerifySign(payload, cfg.accessTokenSecret);
    TokenResult(Sign(payload, cfg.accessTokenSecret), ttl, ttl * 1000)
  }

  function SignRefreshToken(cfg: JwtConfig, payload: Claims, expiresIn: Option<int>): (r: TokenResult)
    ensures r.expiresIn == EffectiveExpiresIn(RefreshTtl, expiresIn)
    ensures r.expiresInMilliseconds == r.expiresIn * 1000
    ensures VerifyRefreshToken(cfg, r.token) == Ok(payload)
  {
    var ttl := EffectiveExpiresIn(RefreshTtl, expiresIn);
    VerifySign(payload, cfg.refreshTokenSecret);
    TokenResult(Sign(payload, cfg.refreshTokenSecret), ttl, ttl * 1000)
  }

  /** The library's error is passed on unchanged; success means the token is the access secret's signature. */
  function VerifyAccessToken(cfg: JwtConfig, token: string): (r: Result<Claims>)
    ensures r.Err? ==> r.error == TokenInvalid
    ensures r.Ok? ==> token == Sign(r.value, cfg.accessTokenSecret)
  {
    var r := Verify(token, cfg.accessTokenSecret);
    if r.Ok? then VerifySound(token, cfg.accessTokenSecret); r else r
  }

  function VerifyRefreshToken(cfg: JwtConfig, token: string): (r: Result<Claims>)
    ensures r.Err? ==> r.error == TokenInvalid
    ensures r.Ok? ==> token == Sign(r.value, cfg.refreshTokenSecret)
  {
    var r := Verify(token, cfg.refreshTokenSecret);
    if r.Ok? then VerifySound(token, cfg.refreshTokenSecret); r else r
  }

  /** Without an override the access lifetime is 86400000 ms in development and 1200000 ms otherwise. */
  lemma AccessDefaultMilliseconds(cfg: JwtConfig, payload: Claims)
    ensures SignAccessToken(cfg, payload, None).expiresInMilliseconds
         == if cfg.isDevEnv then 86400000 else 1200000
  {
  }

  /** Without an override the refresh lifetime is 630720000000 ms (twenty years). */
  lemma RefreshDefaultMilliseconds(cfg: JwtConfig, payload: Claims)
    ensures SignRefreshToken(cfg, payload, None).expiresInMilliseconds == 630720000000
  {
  }

  /**
   * With two different secrets neither kind of token is accepted as the
   * other kind.
   */
  lemma NoCrossKindVerification(cfg: JwtConfig, payload: Claims, expiresIn: Option<int>)
    requires cfg.accessTokenSecret != cfg.refreshTokenSecret
    ensures VerifyRefreshToken(cfg, SignAccessToken(cfg, payload, expiresIn).token).Err?
    ensures VerifyAccessToken(cfg, SignRefreshToken(cfg, payload, expiresIn).token).Err?
  {
    VerifyOtherSecret(payload, cfg.accessTokenSecret, cfg.refreshTokenSecret);
    VerifyOtherSecret(payload, cfg.refreshTokenSecret, cfg.accessTokenSecret);
  }

  /** A token signed under a different configuration's access secret is refused. */
  lemma ForeignAccessTokenRefused(cfg: JwtConfig, other: JwtConfig, payload: Claims)
    requires other.accessTokenSecret != cfg.accessTokenSecret
    ensures VerifyAccessToken(cfg, SignAccessToken(other, payload, None).token) == Err(TokenInvalid)
  {
    VerifyOtherSecret(payload, other.accessTokenSecret, cfg.accessTokenSecret);
  }
}
