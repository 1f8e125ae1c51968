/**
 * `Deps`: the request dependencies that turn credentials into a user: the
 * bearer-token user, the active-user check, the API-key user, the combined
 * resolver and the role check.
 */
module Deps {
  import opened Common
  import opened Store
  import opened Security

  /** What `OAuth2PasswordBearer` answers when the request carries no bearer token. */
  const NOT_AUTHENTICATED := HttpError(UNAUTHORIZED, "Not authenticated")
  const INACTIVE_USER := HttpError(FORBIDDEN, "Inactive user")
  /** The application's handler for an exception nothing else catches. */
  const INTERNAL_SERVER_ERROR := HttpError(INTERNAL_ERROR, "Internal server error")
  const INSUFFICIENT_PERMISSIONS := "Insufficient permissions. Required role: "

  /** `int(payload["sub"])`: `None` where Python's `int` raises. */
  function SubjectId(sub: ClaimValue): (id: Option<int>)
    ensures sub.Text? ==> id == PyInt(sub.text)
    ensures sub.Time? ==> id == Some(sub.minutes)
  {
    match sub
    case Text(t) => PyInt(t)
    case Time(n) => Some(n)
  }

  /**
   * `get_current_user`: a missing bearer token is refused by the OAuth2 scheme,
   * a token the JWT library rejects or one without `sub` gives the credentials
   * error, a `sub` that is not an integer raises out of the handler (500), and
   * an id without a row gives the credentials error again.
   */
  function GetCurrentUser(decode: string -> Option<Claims>, bearer: Option<string>, rows: seq<User>)
    : (r: Result<User, HttpError>)
    ensures bearer.None? ==> r == Failure(NOT_AUTHENTICATED)
    ensures bearer.Some? && decode(bearer.value).None? ==> r == Failure(CREDENTIALS_ERROR)
    ensures (bearer.Some? && decode(bearer.value).Some? && "sub" !in decode(bearer.value).value) ==>
      r == Failure(CREDENTIALS_ERROR)
    ensures (bearer.Some? && decode(bearer.value).Some? && "sub" in decode(bearer.value).value &&
             SubjectId(decode(bearer.value).value["sub"]).None?) ==> r == Failure(INTERNAL_SERVER_ERROR)
    ensures r.Success? <==>
      (bearer.Some? && decode(bearer.value).Some? && "sub" in decode(bearer.value).value &&
       SubjectId(decode(bearer.value).value["sub"]).Some? &&
       UserIndexById(rows, SubjectId(decode(bearer.value).value["sub"]).value) >= 0)
    ensures r.Success? ==> r.value in rows && Some(r.value.id) == SubjectId(decode(bearer.value).value["sub"])
    ensures r.Failure? ==> r.error in {NOT_AUTHENTICATED, CREDENTIALS_ERROR, INTERNAL_SERVER_ERROR}
  {
    match bearer
    case None => Failure(NOT_AUTHENTICATED)
    case Some(token) =>
      match DecodeToken(decode, token)
      case Failure(e) => Failure(e)
      case Success(payload) =>
        if "sub" !in payload then Failure(CREDENTIALS_ERROR)
        else
          match SubjectId(payload["sub"])
          case None => Failure(INTERNAL_SERVER_ERROR)
          case Some(id) =>
            var i := UserIndexById(rows, id);
            if i == -1 then Failure(CREDENTIALS_ERROR) else Success(rows[i])
  }

  /**
   * A user holding an access token issued for their id, whose extra claims do
   * not replace `sub`, is recognised when the JWT codec reads back what it
   * wrote.
   */
  lemma IssuedTokenIdentifiesUser(encode: Claims -> string, decode: string -> Option<Claims>, now: int,
                                  expiresDelta: Option<int>, additional: Claims, rows: seq<User>, k: int)
    requires forall c :: decode(encode(c)) == Some(c)
    requires forall i, j :: 0 <= i < j < |rows| ==> rows[i].id != rows[j].id
    requires 0 <= k < |rows|
    requires "sub" !in additional
    ensures GetCurrentUser(decode, Some(CreateAccessToken(encode, now, IntSubject(rows[k].id), expiresDelta, additional)),
                           rows) == Success(rows[k])
  {
    var claims := AccessClaims(now, IntSubject(rows[k].id), expiresDelta, additional);
    assert claims["sub"] == Text(IntToString(rows[k].id));
    IntStringRoundTrip(rows[k].id);
    assert UserIndexById(rows, rows[k].id) == k;
  }

  /**
   * `get_current_user` never reads the `type` claim, so a refresh token is
   * accepted wherever an access token is: it resolves to its user exactly as
   * an access token issued at the same time does.
   */
  lemma RefreshTokenActsAsAccessToken(encode: Claims -> string, decode: string -> Option<Claims>, now: int,
                                      rows: seq<User>, k: int)
    requires forall c :: decode(encode(c)) == Some(c)
    requires forall i, j :: 0 <= i < j < |rows| ==> rows[i].id != rows[j].id
    requires 0 <= k < |rows|
    ensures GetCurrentUser(decode, Some(CreateRefreshToken(encode, now, IntSubject(rows[k].id))), rows) ==
            GetCurrentUser(decode, Some(CreateAccessToken(encode, now, IntSubject(rows[k].id), None, map[])), rows)
    ensures GetCurrentUser(decode, Some(CreateRefreshToken(encode, now, IntSubject(rows[k].id))), rows) == Success(rows[k])
  {
    IssuedTokenIdentifiesUser(encode, decode, now, None, map[], rows, k);
    var claims := RefreshClaims(now, IntSubject(rows[k].id));
    assert claims["sub"] == Text(IntToString(rows[k].id));
    IntStringRoundTrip(rows[k].id);
    assert UserIndexById(rows, rows[k].id) == k;
  }

  /** `get_current_active_user`: a deactivated account is refused. */
  function GetCurrentActiveUser(current: Result<User, HttpError>): (r: Result<User, HttpError>)
    ensures current.Failure? ==> r == current
    ensures current.Success? && !current.value.isActive ==> r == Failure(INACTIVE_USER)
    ensures r.Success? <==> current.Success? && current.value.isActive
    ensures r.Success? ==> r == current
  {
    match current
    case Failure(e) => Failure(e)
    case Success(user) => if user.isActive then Success(user) else Failure(INACTIVE_USER)
  }

  // ---------------------------------------------------------------------------
  // API keys

  /** A row whose stored API-key hash accepts `key`. */
  predicate KeyMatches(ph: PasswordHasher, user: User, key: string)
  {
    user.apiKeyHash.Some? && VerifyApiKey(ph, key, user.apiKeyHash.value)
  }

  /**
   * What `get_current_user_with_api_key` answers: no user for a missing or
   * empty key or a key no stored hash accepts; otherwise the first row whose
   * hash accepts it, refused with 403 if that account is inactive.
   */
  function ApiKeyLookup(rows: seq<User>, apiKey: Option<string>, ph: PasswordHasher)
    : (r: Result<Option<User>, HttpError>)
    ensures (apiKey.None? || apiKey.value == "") ==> r == Success(None)
    ensures r == Success(None) <==>
      (apiKey.None? || apiKey.value == "" || forall k :: 0 <= k < |rows| ==> !KeyMatches(ph, rows[k], apiKey.value))
    ensures r.Success? && r.value.Some? ==>
      (r.value.value in rows && r.value.value.isActive && KeyMatches(ph, r.value.value, apiKey.value))
    ensures r.Failure? ==> (r.error == INACTIVE_USER &&
      exists k :: 0 <= k < |rows| && KeyMatches(ph, rows[k], apiKey.value) && !rows[k].isActive)
    ensures apiKey.Some? && apiKey.value != "" ==>
      forall i :: 0 <= i < |rows| && KeyMatches(ph, rows[i], apiKey.value) &&
                  (forall k :: 0 <= k < i ==> !KeyMatches(ph, rows[k], apiKey.value)) ==>
        r == (if rows[i].isActive then Success(Some(rows[i])) else Failure(INACTIVE_USER))
  {
    if apiKey.None? || apiKey.value == "" then Success(None)
    else
      var i := FirstIndex(rows, (u: User) => KeyMatches(ph, u, apiKey.value));
      if i == -1 then Success(None)
      else if !rows[i].isActive then Failure(INACTIVE_USER)
      else Success(Some(rows[i]))
  }

  /**
   * `get_current_user_with_api_key`: the rows carrying a key hash are tried in
   * table order and the first whose hash accepts the key decides.
   */
  method GetCurrentUserWithApiKey(rows: seq<User>, apiKey: Option<string>, ph: PasswordHasher)
    returns (r: Result<Option<User>, HttpError>)
    ensures r == ApiKeyLookup(rows, apiKey, ph)
  {
    if apiKey.None? || apiKey.value == "" {
      return Success(None);
    }
    var key := apiKey.value;
    var k := 0;
    while k < |rows|
      invariant 0 <= k <= |rows|
      invariant forall j :: 0 <= j < k ==> !KeyMatches(ph, rows[j], key)
    {
      if KeyMatches(ph, rows[k], key) {
        assert FirstIndex(rows, (u: User) => KeyMatches(ph, u, key)) == k;
        if !rows[k].isActive {
          return Failure(INACTIVE_USER);
        }
        return Success(Some(rows[k]));
      }
      k := k + 1;
    }
    return Success(None);
  }

  /**
   * When every stored hash is the hash of a key that was handed out, and keys
   * are distinct, presenting a user's key finds that user (or refuses them if
   * they are inactive).
   */
  lemma IssuedKeyIdentifiesUser(rows: seq<User>, keys: seq<string>, i: int, ph: PasswordHasher)
    requires Sound(ph) && Binding(ph)
    requires |keys| == |rows| && 0 <= i < |rows|
    requires forall k :: 0 <= k < |rows| && rows[k].apiKeyHash.Some? ==> rows[k].apiKeyHash.value == ph.hash(keys[k])
    requires forall k :: 0 <= k < |rows| && k != i ==> keys[k] != keys[i]
    requires rows[i].apiKeyHash.Some? && keys[i] != ""
    ensures ApiKeyLookup(rows, Some(keys[i]), ph) ==
      (if rows[i].isActive then Success(Some(rows[i])) else Failure(INACTIVE_USER))
  {
    var p := (u: User) => KeyMatches(ph, u, keys[i]);
    assert p(rows[i]);
    forall k | 0 <= k < |rows| && k != i
      ensures !p(rows[k])
    {
      if rows[k].apiKeyHash.Some? {
        assert rows[k].apiKeyHash.value == ph.hash(keys[k]);
      }
    }
    assert FirstIndex(rows, p) == i;
  }

  // ---------------------------------------------------------------------------
  // The combined resolver

  /**
   * `get_current_user_flexible` as written: the active-user dependency is
   * resolved first and its error ends the request; the API-key dependency is
   * resolved next and its error (an inactive key owner's 403) ends the request
   * too, even behind a valid bearer token; then `jwt_user or api_user` is the
   * bearer-token user, since a resolved user is never falsy.
   */
  function GetCurrentUserFlexible(decode: string -> Option<Claims>, bearer: Option<string>, apiKey: Option<string>,
                                  rows: seq<User>, ph: PasswordHasher): (r: Result<User, HttpError>)
    ensures GetCurrentActiveUser(GetCurrentUser(decode, bearer, rows)).Failure? ==>
      r == GetCurrentActiveUser(GetCurrentUser(decode, bearer, rows))
    ensures (GetCurrentActiveUser(GetCurrentUser(decode, bearer, rows)).Success? &&
             ApiKeyLookup(rows, apiKey, ph).Failure?) ==> r == Failure(INACTIVE_USER)
    ensures (GetCurrentActiveUser(GetCurrentUser(decode, bearer, rows)).Success? &&
             ApiKeyLookup(rows, apiKey, ph).Success?) ==> r == GetCurrentActiveUser(GetCurrentUser(decode, bearer, rows))
    ensures r.Success? ==> r == GetCurrentActiveUser(GetCurrentUser(decode, bearer, rows))
  {
    match GetCurrentActiveUser(GetCurrentUser(decode, bearer, rows))
    case Failure(e) => Failure(e)
    case Success(jwtUser) =>
      match ApiKeyLookup(rows, apiKey, ph)
      case Failure(e) => Failure(e)
      case Success(apiUser) => Success(jwtUser)
  }

  /**
   * The API key is never enough on its own: a request without a bearer token
   * is refused even when it carries the valid key of an active user, whom the
   * intended resolver accepts.
   */
  lemma ApiKeyAloneIsRefused(decode: string -> Option<Claims>, apiKey: string, rows: seq<User>, ph: PasswordHasher,
                             user: User)
    requires ApiKeyLookup(rows, Some(apiKey), ph) == Success(Some(user))
    ensures GetCurrentUserFlexible(decode, None, Some(apiKey), rows, ph) == Failure(NOT_AUTHENTICATED)
    ensures FlexibleIntended(decode, None, Some(apiKey), rows, ph) == Success(user)
  {
  }

  /**
   * The resolver as evidently intended: a bearer token, when one is sent,
   * decides as the active-user dependency does; without one the API key
   * decides; with neither the request is not authenticated.
   */
  function FlexibleIntended(decode: string -> Option<Claims>, bearer: Option<string>, apiKey: Option<string>,
                            rows: seq<User>, ph: PasswordHasher): (r: Result<User, HttpError>)
    ensures bearer.Some? ==> r == GetCurrentActiveUser(GetCurrentUser(decode, bearer, rows))
    ensures bearer.None? ==>
      (r.Success? <==> ApiKeyLookup(rows, apiKey, ph).Success? && ApiKeyLookup(rows, apiKey, ph).value.Some?)
    ensures bearer.None? && r.Success? ==> r.value == ApiKeyLookup(rows, apiKey, ph).value.value
    ensures bearer.None? && ApiKeyLookup(rows, apiKey, ph) == Success(None) ==> r == Failure(NOT_AUTHENTICATED)
  {
    if bearer.Some? then GetCurrentActiveUser(GetCurrentUser(decode, bearer, rows))
    else
      match ApiKeyLookup(rows, apiKey, ph)
      case Failure(e) => Failure(e)
      case Success(None) => Failure(NOT_AUTHENTICATED)
      case Success(Some(u)) => Success(u)
  }

  /** Every user the intended resolver accepts is an active row holding valid credentials. */
  lemma IntendedAcceptsOnlyActiveRows(decode: string -> Option<Claims>, bearer: Option<string>,
                                      apiKey: Option<string>, rows: seq<User>, ph: PasswordHasher)
    ensures var r := FlexibleIntended(decode, bearer, apiKey, rows, ph);
      r.Success? ==> r.value in rows && r.value.isActive
  {
  }

  // ---------------------------------------------------------------------------
  // Roles

  /**
   * `require_role(required)`: an administrator passes every role check; anyone
   * else passes only their own role's check.  `roleValue` is the enum's
   * `.value` text.
   */
  function RequireRole(active: Result<User, HttpError>, required: UserRole, roleValue: UserRole -> string)
    : (r: Result<User, HttpError>)
    ensures active.Failure? ==> r == active
    ensures active.Success? ==>
      (r.Success? <==> active.value.role == ADMIN || active.value.role == required)
    ensures r.Success? ==> r == active
    ensures active.Success? && r.Failure? ==>
      r.error == HttpError(FORBIDDEN, INSUFFICIENT_PERMISSIONS + roleValue(required))
  {
    match active
    case Failure(e) => Failure(e)
    case Success(user) =>
      if user.role == ADMIN then Success(user)
      else if user.role != required then
        Failure(HttpError(FORBIDDEN, INSUFFICIENT_PERMISSIONS + roleValue(required)))
      else Success(user)
  }

  /** Passing `require_admin` means passing every role check. */
  lemma AdminPassesEveryCheck(active: Result<User, HttpError>, required: UserRole, roleValue: UserRole -> string)
    requires RequireRole(active, ADMIN, roleValue).Success?
    ensures RequireRole(active, required, roleValue) == active
  {
  }

  /** Only an administrator passes two different role checks. */
  lemma TwoRolesMeanAdmin(active: Result<User, HttpError>, r1: UserRole, r2: UserRole, roleValue: UserRole -> string)
    requires r1 != r2
    requires RequireRole(active, r1, roleValue).Success? && RequireRole(active, r2, roleValue).Success?
    ensures active.Success? && active.value.role == ADMIN
  {
  }
}
