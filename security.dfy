/**
 * `Security`: the claims put into access and refresh tokens, token decoding,
 * and the API-key format.  bcrypt, the JWT codec and the random token source
 * are parameters: the model fixes what goes into them and how their answers
 * are used, not how they compute.  Times are integer minutes.
 */
module Security {
  import opened Common
  import Config

  /** A value in a token's claims. */
  datatype ClaimValue = Text(text: string) | Time(minutes: int)

  type Claims = map<string, ClaimValue>

  /** `subject: str | int`. */
  datatype Subject = TextSubject(text: string) | IntSubject(n: int)

  /** `str(subject)`. */
  function SubjectText(s: Subject): string
  {
    match s
    case TextSubject(t) => t
    case IntSubject(n) => IntToString(n)
  }

  /**
   * bcrypt as the model sees it: hashing a password (the salt is the hasher's
   * business) and checking a password against a stored hash.
   */
  datatype PasswordHasher = PasswordHasher(hash: string -> string, verify: (string, string) -> bool)

  /** A hasher accepts every password against its own hash. */
  ghost predicate Sound(ph: PasswordHasher)
  {
    forall p :: ph.verify(p, ph.hash(p))
  }

  /** A hasher accepts a password only against that password's hash. */
  ghost predicate Binding(ph: PasswordHasher)
  {
    forall p, q :: ph.verify(p, ph.hash(q)) ==> p == q
  }

  /** `verify_password`. */
  function VerifyPassword(ph: PasswordHasher, plain: string, hashed: string): bool
  {
    ph.verify(plain, hashed)
  }

  /** `get_password_hash`. */
  function PasswordHash(ph: PasswordHasher, password: string): string
  {
    ph.hash(password)
  }

  /** A password checks out against its own hash when the hasher is sound. */
  lemma PasswordRoundTrip(ph: PasswordHasher, password: string)
    requires Sound(ph)
    ensures VerifyPassword(ph, password, PasswordHash(ph, password))
  {
  }

  // ---------------------------------------------------------------------------
  // Token claims

  /** The lifetime `create_access_token` uses: the given one unless it is absent or zero. */
  function AccessLifetime(expiresDelta: Option<int>): (minutes: int)
    ensures expiresDelta.None? ==> minutes == Config.ACCESS_TOKEN_EXPIRE_MINUTES
    ensures expiresDelta == Some(0) ==> minutes == Config.ACCESS_TOKEN_EXPIRE_MINUTES
    ensures expiresDelta.Some? && expiresDelta.value != 0 ==> minutes == expiresDelta.value
  {
    if expiresDelta.Some? && expiresDelta.value != 0 then expiresDelta.value
    else Config.ACCESS_TOKEN_EXPIRE_MINUTES
  }

  /** `exp`, `sub` and `iat`, before the additional claims are merged in. */
  function BaseClaims(now: int, subject: Subject, lifetime: int): (c: Claims)
    ensures c.Keys == {"exp", "sub", "iat"}
  {
    map["exp" := Time(now + lifetime), "sub" := Text(SubjectText(subject)), "iat" := Time(now)]
  }

  /**
   * The claims of `create_access_token`: `exp` is `now` plus the lifetime,
   * `sub` and `iat`; then the additional claims, which override.
   */
  function AccessClaims(now: int, subject: Subject, expiresDelta: Option<int>, additional: Claims): (c: Claims)
    ensures c.Keys == {"exp", "sub", "iat"} + additional.Keys
    ensures forall k :: k in additional ==> c[k] == additional[k]
    ensures "exp" !in additional ==> c["exp"] == Time(now + AccessLifetime(expiresDelta))
    ensures "sub" !in additional ==> c["sub"] == Text(SubjectText(subject))
    ensures "iat" !in additional ==> c["iat"] == Time(now)
  {
    var base := BaseClaims(now, subject, AccessLifetime(expiresDelta));
    if |additional| > 0 then base + additional
    else
      assert additional.Keys == {};
      base
  }

  /** The claims of `create_refresh_token`. */
  function RefreshClaims(now: int, subject: Subject): (c: Claims)
    ensures c.Keys == {"exp", "sub", "iat", "type"}
    ensures c["exp"] == Time(now + Config.REFRESH_TOKEN_EXPIRE_MINUTES)
    ensures c["sub"] == Text(SubjectText(subject)) && c["iat"] == Time(now)
    ensures c["type"] == Text("refresh")
  {
    map["exp" := Time(now + Config.REFRESH_TOKEN_EXPIRE_MINUTES), "sub" := Text(SubjectText(subject)),
        "iat" := Time(now), "type" := Text("refresh")]
  }

  /** `create_access_token`: the claims, encoded and signed by the JWT library. */
  function CreateAccessToken(encode: Claims -> string, now: int, subject: Subject, expiresDelta: Option<int>,
                             additional: Claims): string
  {
    encode(AccessClaims(now, subject, expiresDelta, additional))
  }

  /** `create_refresh_token`. */
  function CreateRefreshToken(encode: Claims -> string, now: int, subject: Subject): string
  {
    encode(RefreshClaims(now, subject))
  }

  /** The credentials error every token problem turns into. */
  const CREDENTIALS_ERROR := HttpError(UNAUTHORIZED, "Could not validate credentials")

  /**
   * `decode_token`: the JWT library's verdict (`None` for a bad signature, an
   * expired token or a malformed one) or 401.
   */
  function DecodeToken(decode: string -> Option<Claims>, token: string): (r: Result<Claims, HttpError>)
    ensures r.Success? <==> decode(token).Some?
    ensures r.Success? ==> r.value == decode(token).value
    ensures r.Failure? ==> r.error == CREDENTIALS_ERROR
  {
    match decode(token)
    case Some(claims) => Success(claims)
    case None => Failure(CREDENTIALS_ERROR)
  }

  /** A codec that reads back what it wrote decodes a fresh access token to its claims. */
  lemma AccessTokenRoundTrip(encode: Claims -> string, decode: string -> Option<Claims>, now: int,
                             subject: Subject, expiresDelta: Option<int>, additional: Claims)
    requires forall c :: decode(encode(c)) == Some(c)
    ensures DecodeToken(decode, CreateAccessToken(encode, now, subject, expiresDelta, additional)) ==
      Success(AccessClaims(now, subject, expiresDelta, additional))
  {
  }

  // ---------------------------------------------------------------------------
  // API keys

  const API_KEY_PREFIX := "vn_"

  /** `generate_api_key`: the prefix and a random url-safe token (the token is a parameter). */
  function GenerateApiKey(token: string): (key: string)
    ensures StartsWith(key, API_KEY_PREFIX)
    ensures |key| == |token| + 3
    ensures key[3..] == token
  {
    API_KEY_PREFIX + token
  }

  /** Different random tokens give different keys. */
  lemma ApiKeysDistinct(t1: string, t2: string)
    requires t1 != t2
    ensures GenerateApiKey(t1) != GenerateApiKey(t2)
  {
    assert GenerateApiKey(t1)[3..] == t1;
  }

  /** `verify_api_key`: an API key is checked against its stored hash the way a password is. */
  function VerifyApiKey(ph: PasswordHasher, apiKey: string, storedHash: string): bool
  {
    VerifyPassword(ph, apiKey, storedHash)
  }

  /**
   * A generated key checks out against its stored hash, and, with a binding
   * hasher, no other key does.
   */
  lemma ApiKeyRoundTrip(ph: PasswordHasher, token: string, other: string)
    requires Sound(ph)
    ensures VerifyApiKey(ph, GenerateApiKey(token), PasswordHash(ph, GenerateApiKey(token)))
    ensures Binding(ph) && other != GenerateApiKey(token) ==>
      !VerifyApiKey(ph, other, PasswordHash(ph, GenerateApiKey(token)))
  {
  }
}
