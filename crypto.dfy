/**
 * Stand-ins for the two cryptographic libraries the core calls: jsonwebtoken
 * (sign and verify with a shared secret) and argon2 (hash and verify).
 *
 * Both are given concrete symbolic definitions over the space-free codec, so
 * that the properties the rest of the model relies on are proved here rather
 * than assumed:
 *  - a token verifies under the secret it was signed with, to its payload;
 *  - a token never verifies under another secret;
 *  - a token verifies only if it is exactly the signature of what it decodes to;
 *  - a token is non-empty and holds no space;
 *  - a password verifies against its own hash and no other password does.
 * The signature part is the key written out, which is what "signed with k"
 * means in a symbolic model; nothing here measures cryptographic strength.
 */
module Crypto {
  import opened Common
  import opened Codec

  /**
   * The JSON payload of a token. Access tokens carry no `id` and no `valid`
   * (the two are absent keys, not false); refresh tokens are signed from a
   * session row and carry both.
   */
  datatype Claims = Claims(
    id: Option<nat>,
    sub: nat,
    username: string,
    ip: string,
    userAgent: string,
    valid: Option<bool>)

  function EncodeOptNat(o: Option<nat>): string {
    match o
    case None => "N"
    case Some(n) => "S" + EncodeNat(n)
  }

  function DecodeOptNat(s: string): (r: Option<(Option<nat>, string)>)
    ensures r.Some? ==> |r.value.1| < |s|
  {
    if |s| == 0 then None
    else if s[0] == 'N' then Some((None, s[1..]))
    else if s[0] == 'S' then
      match DecodeNat(s[1..])
      case None => None
      case Some(p) => Some((Some(p.0), p.1))
    else None
  }

  function EncodeOptBool(o: Option<bool>): string {
    match o
    case None => "N"
    case Some(b) => if b then "T" else "F"
  }

  function DecodeOptBool(s: string): (r: Option<(Option<bool>, string)>)
    ensures r.Some? ==> |r.value.1| < |s|
  {
    if |s| == 0 then None
    else if s[0] == 'N' then Some((None, s[1..]))
    else if s[0] == 'T' then Some((Some(true), s[1..]))
    else if s[0] == 'F' then Some((Some(false), s[1..]))
    else None
  }

  function EncodeClaims(c: Claims): string {
    EncodeOptNat(c.id) + EncodeNat(c.sub) + EncodeStr(c.username) + EncodeStr(c.ip)
      + EncodeStr(c.userAgent) + EncodeOptBool(c.valid)
  }

  function DecodeClaims(s: string): (r: Option<(Claims, string)>)
    ensures r.Some? ==> |r.value.1| < |s|
  {
    match DecodeOptNat(s)
    case None => None
    case Some(p1) =>
      match DecodeNat(p1.1)
      case None => None
      case Some(p2) =>
        match DecodeStr(p2.1)
        case None => None
        case Some(p3) =>
          match DecodeStr(p3.1)
          case None => None
          case Some(p4) =>
            match DecodeStr(p4.1)
            case None => None
            case Some(p5) =>
              match DecodeOptBool(p5.1)
              case None => None
              case Some(p6) => Some((Claims(p1.0, p2.0, p3.0, p4.0, p5.0, p6.0), p6.1))
  }

  lemma DecodeEncodeOptNat(o: Option<nat>, rest: string)
    ensures DecodeOptNat(EncodeOptNat(o) + rest) == Some((o, rest))
  {
    var s := EncodeOptNat(o) + rest;
    match o
    case None => assert s[1..] == rest;
    case Some(n) =>
      assert s[1..] == EncodeNat(n) + rest;
      DecodeEncodeNat(n, rest);
  }

  lemma DecodeEncodeOptBool(o: Option<bool>, rest: string)
    ensures DecodeOptBool(EncodeOptBool(o) + rest) == Some((o, rest))
  {
    assert (EncodeOptBool(o) + rest)[1..] == rest;
  }

  lemma DecodeEncodeClaims(c: Claims, rest: string)
    ensures DecodeClaims(EncodeClaims(c) + rest) == Some((c, rest))
  {
    var r6 := EncodeOptBool(c.valid) + rest;
    var r5 := EncodeStr(c.userAgent) + r6;
    var r4 := EncodeStr(c.ip) + r5;
    var r3 := EncodeStr(c.username) + r4;
    var r2 := EncodeNat(c.sub) + r3;
    assert EncodeClaims(c) + rest == EncodeOptNat(c.id) + r2;
    DecodeEncodeOptNat(c.id, r2);
    DecodeEncodeNat(c.sub, r3);
    DecodeEncodeStr(c.username, r4);
    DecodeEncodeStr(c.ip, r5);
    DecodeEncodeStr(c.userAgent, r6);
    DecodeEncodeOptBool(c.valid, rest);
  }

  lemma DecodeOptNatSound(s: string)
    requires DecodeOptNat(s).Some?
    ensures s == EncodeOptNat(DecodeOptNat(s).value.0) + DecodeOptNat(s).value.1
  {
    assert s == [s[0]] + s[1..];
    if s[0] == 'S' {
      DecodeNatSound(s[1..]);
    }
  }

  lemma DecodeOptBoolSound(s: string)
    requires DecodeOptBool(s).Some?
    ensures s == EncodeOptBool(DecodeOptBool(s).value.0) + DecodeOptBool(s).value.1
  {
    assert s == [s[0]] + s[1..];
  }

  lemma DecodeClaimsSound(s: string)
    requires DecodeClaims(s).Some?
    ensures s == EncodeClaims(DecodeClaims(s).value.0) + DecodeClaims(s).value.1
  {
    var p1 := DecodeOptNat(s).value;
    var p2 := DecodeNat(p1.1).value;
    var p3 := DecodeStr(p2.1).value;
    var p4 := DecodeStr(p3.1).value;
    var p5 := DecodeStr(p4.1).value;
    var p6 := DecodeOptBool(p5.1).value;
    var c := Claims(p1.0, p2.0, p3.0, p4.0, p5.0, p6.0);
    assert DecodeClaims(s).value == (c, p6.1);
    DecodeOptNatSound(s);
    DecodeNatSound(p1.1);
    DecodeStrSound(p2.1);
    DecodeStrSound(p3.1);
    DecodeStrSound(p4.1);
    DecodeOptBoolSound(p5.1);
    ClaimsConcat(c, p6.1);
  }

  lemma ClaimsConcat(c: Claims, rest: string)
    ensures EncodeClaims(c) + rest
         == EncodeOptNat(c.id) + (EncodeNat(c.sub) + (EncodeStr(c.username) + (EncodeStr(c.ip)
              + (EncodeStr(c.userAgent) + (EncodeOptBool(c.valid) + rest)))))
  {
  }

  /** jsonwebtoken's sign: the payload followed by its signature under `secret`. */
  function Sign(payload: Claims, secret: string): (token: string)
    ensures |token| > 0 && IsCodeText(token)
  {
    EncodeOptNatText(payload.id);
    EncodeNatText(payload.sub);
    EncodeStrText(payload.username);
    EncodeStrText(payload.ip);
    EncodeStrText(payload.userAgent);
    EncodeStrText(secret);
    var t := EncodeClaims(payload) + EncodeStr(secret);
    ClaimsTextConcat(payload, secret);
    t
  }

  lemma EncodeOptNatText(o: Option<nat>)
    ensures IsCodeText(EncodeOptNat(o))
  {
    if o.Some? {
      EncodeNatText(o.value);
      CodeTextConcat("S", EncodeNat(o.value));
    }
  }

  lemma ClaimsTextConcat(c: Claims, secret: string)
    requires IsCodeText(EncodeOptNat(c.id)) && IsCodeText(EncodeNat(c.sub))
    requires IsCodeText(EncodeStr(c.username)) && IsCodeText(EncodeStr(c.ip))
    requires IsCodeText(EncodeStr(c.userAgent)) && IsCodeText(EncodeStr(secret))
    ensures IsCodeText(EncodeClaims(c) + EncodeStr(secret))
  {
    var a := EncodeOptNat(c.id);
    CodeTextConcat(a, EncodeNat(c.sub));
    CodeTextConcat(a + EncodeNat(c.sub), EncodeStr(c.username));
    CodeTextConcat(a + EncodeNat(c.sub) + EncodeStr(c.username), EncodeStr(c.ip));
    CodeTextConcat(a + EncodeNat(c.sub) + EncodeStr(c.username) + EncodeStr(c.ip), EncodeStr(c.userAgent));
    CodeTextConcat(a + EncodeNat(c.sub) + EncodeStr(c.username) + EncodeStr(c.ip) + EncodeStr(c.userAgent),
                   EncodeOptBool(c.valid));
    CodeTextConcat(EncodeClaims(c), EncodeStr(secret));
  }

  /**
   * jsonwebtoken's verify: the payload when `token` is signed with `secret`,
   * otherwise the library's error (malformed text, bad signature).
   */
  function Verify(token: string, secret: string): (r: Result<Claims>)
    ensures r.Err? ==> r.error == TokenInvalid
  {
    match DecodeClaims(token)
    case None => Err(TokenInvalid)
    case Some(p) =>
      match DecodeStr(p.1)
      case None => Err(TokenInvalid)
      case Some(q) => if q.0 == secret && q.1 == [] then Ok(p.0) else Err(TokenInvalid)
  }

  /** Verifying a signed token with the signing secret gives back the payload. */
  lemma VerifySign(payload: Claims, secret: string)
    ensures Verify(Sign(payload, secret), secret) == Ok(payload)
  {
    var sig := EncodeStr(secret);
    DecodeEncodeClaims(payload, sig);
    assert sig == sig + [];
    DecodeEncodeStr(secret, []);
  }

  /** A signed token does not verify under any other secret. */
  lemma VerifyOtherSecret(payload: Claims, secret: string, other: string)
    requires other != secret
    ensures Verify(Sign(payload, secret), other) == Err(TokenInvalid)
  {
    var sig := EncodeStr(secret);
    DecodeEncodeClaims(payload, sig);
    assert sig == sig + [];
    DecodeEncodeStr(secret, []);
  }

  /** Whatever verifies under `secret` is exactly the signature of its payload. */
  lemma VerifySound(token: string, secret: string)
    requires Verify(token, secret).Ok?
    ensures token == Sign(Verify(token, secret).value, secret)
  {
    var p := DecodeClaims(token).value;
    DecodeClaimsSound(token);
    DecodeStrSound(p.1);
    assert DecodeStr(p.1).value.1 == [];
    assert p.1 == EncodeStr(secret) + [];
  }

  /** Neither the empty string nor an unsigned text verifies. */
  lemma VerifyEmpty(secret: string)
    ensures Verify("", secret) == Err(TokenInvalid)
  {
  }

  /** argon2's hash of `password`; `salt` is the random salt the library draws. */
  function Hash(password: string, salt: nat): (h: string)
    ensures |h| > 0
  {
    EncodeNat(salt) + EncodeStr(password)
  }

  /**
   * argon2's verify of `password` against the stored `hash`. A stored text
   * that is no hash at all answers false here (the library would throw).
   */
  function HashVerify(hash: string, password: string): (ok: bool)
  {
    match DecodeNat(hash)
    case None => false
    case Some(p) =>
      match DecodeStr(p.1)
      case None => false
      case Some(q) => q.0 == password && q.1 == []
  }

  /** A password verifies against its own hash, whatever the salt. */
  lemma HashVerifyOwn(password: string, salt: nat)
    ensures HashVerify(Hash(password, salt), password)
  {
    var e := EncodeStr(password);
    assert e == e + [];
    DecodeEncodeNat(salt, e);
    DecodeEncodeStr(password, []);
  }

  /** A stored text verifies a password exactly when it is a hash of that password under some salt. */
  lemma HashVerifyExactly(hash: string, password: string)
    ensures HashVerify(hash, password) <==> exists salt :: hash == Hash(password, salt)
  {
    if HashVerify(hash, password) {
      var p := DecodeNat(hash).value;
      DecodeNatSound(hash);
      DecodeStrSound(p.1);
      assert EncodeStr(password) + [] == EncodeStr(password);
      assert hash == Hash(password, p.0);
    }
    if exists salt :: hash == Hash(password, salt) {
      var salt :| hash == Hash(password, salt);
      HashVerifyOwn(password, salt);
    }
  }

  /** No two different passwords verify against one stored hash. */
  lemma HashVerifyUnique(hash: string, p1: string, p2: string)
    requires HashVerify(hash, p1) && HashVerify(hash, p2)
    ensures p1 == p2
  {
  }

  /** A password other than the hashed one is rejected. */
  lemma HashVerifyOther(password: string, salt: nat, other: string)
    requires other != password
    ensures !HashVerify(Hash(password, salt), other)
  {
    HashVerifyOwn(password, salt);
  }
}
