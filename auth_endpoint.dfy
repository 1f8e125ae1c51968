/**
 * `AuthEndpoint`: the `/auth` routes: logging in (a token pair for a known,
 * active account), issuing an API key for the caller, and logging out.
 */
module AuthEndpoint {
  import opened Common
  import opened Store
  import opened Security
  import AuthService
  import Deps
  import Config

  const WRONG_CREDENTIALS := HttpError(UNAUTHORIZED, "Incorrect email or password")
  const ACCOUNT_INACTIVE := HttpError(FORBIDDEN, "Account is inactive")
  const API_KEY_MESSAGE := "Store this API key securely. It will not be shown again."

  /** `Token`: the pair of tokens a login hands out. */
  datatype TokenResponse = TokenResponse(accessToken: string, refreshToken: string, tokenType: string)

  /** The extra claims of a login's access token: the role's text and the e-mail address. */
  function LoginClaims(user: User, roleValue: UserRole -> string): (c: Claims)
    ensures c.Keys == {"role", "email"}
    ensures c["role"] == Text(roleValue(user.role)) && c["email"] == Text(user.email)
  {
    map["role" := Text(roleValue(user.role)), "email" := Text(user.email)]
  }

  /**
   * `login`: an unknown e-mail address or a wrong password gives 401, an
   * inactive account 403; otherwise an access token for the user's id with the
   * default lifetime and the role and e-mail claims, and a refresh token.
   */
  function Login(rows: seq<User>, email: string, password: string, ph: PasswordHasher,
                 encode: Claims -> string, now: int, roleValue: UserRole -> string)
    : (r: Result<TokenResponse, HttpError>)
    requires AuthService.EmailsUnique(rows)
    ensures AuthService.AuthenticateUser(rows, email, password, ph).None? ==> r == Failure(WRONG_CREDENTIALS)
    ensures (AuthService.AuthenticateUser(rows, email, password, ph).Some? &&
             !AuthService.AuthenticateUser(rows, email, password, ph).value.isActive) ==> r == Failure(ACCOUNT_INACTIVE)
    ensures r.Success? <==>
      (AuthService.AuthenticateUser(rows, email, password, ph).Some? &&
       AuthService.AuthenticateUser(rows, email, password, ph).value.isActive)
    ensures r.Success? ==>
      var user := AuthService.AuthenticateUser(rows, email, password, ph).value;
      r.value.tokenType == "bearer" &&
      r.value.accessToken == encode(AccessClaims(now, IntSubject(user.id), None, LoginClaims(user, roleValue))) &&
      r.value.refreshToken == encode(RefreshClaims(now, IntSubject(user.id)))
  {
    match AuthService.AuthenticateUser(rows, email, password, ph)
    case None => Failure(WRONG_CREDENTIALS)
    case Some(user) =>
      if !user.isActive then Failure(ACCOUNT_INACTIVE)
      else
        var access := CreateAccessToken(encode, now, IntSubject(user.id), None, LoginClaims(user, roleValue));
        var refresh := CreateRefreshToken(encode, now, IntSubject(user.id));
        Success(TokenResponse(access, refresh, "bearer"))
  }

  /**
   * Logging in and presenting the access token gets the same user back from
   * `get_current_active_user`, with a sound hasher and a codec that reads back
   * what it wrote; the token expires a day after it was issued.
   */
  lemma LoginTokenAuthenticates(rows: seq<User>, nextId: int, k: int, password: string, ph: PasswordHasher,
                                encode: Claims -> string, decode: string -> Option<Claims>, now: int,
                                roleValue: UserRole -> string)
    requires UserRowsValid(rows, nextId)
    requires 0 <= k < |rows| && rows[k].isActive
    requires rows[k].hashedPassword == PasswordHash(ph, password) && Sound(ph)
    requires forall c :: decode(encode(c)) == Some(c)
    ensures AuthService.EmailsUnique(rows)
    ensures Login(rows, rows[k].email, password, ph, encode, now, roleValue).Success?
    ensures var token := Login(rows, rows[k].email, password, ph, encode, now, roleValue).value.accessToken;
      Deps.GetCurrentActiveUser(Deps.GetCurrentUser(decode, Some(token), rows)) == Success(rows[k]) &&
      decode(token).value["exp"] == Time(now + Config.ACCESS_TOKEN_EXPIRE_MINUTES)
  {
    LoginSucceeds(rows, nextId, k, password, ph, encode, now, roleValue);
    LoginTokenIdentifiesUser(rows, nextId, k, encode, decode, now, roleValue);
    LoginTokenExpiry(rows[k], roleValue, now);
  }

  /** The access token a login issues for an active account's row identifies that row. */
  lemma LoginTokenIdentifiesUser(rows: seq<User>, nextId: int, k: int, encode: Claims -> string, decode: string -> Option<Claims>,
                                 now: int, roleValue: UserRole -> string)
    requires UserRowsValid(rows, nextId)
    requires 0 <= k < |rows| && rows[k].isActive
    requires forall c :: decode(encode(c)) == Some(c)
    ensures var token := CreateAccessToken(encode, now, IntSubject(rows[k].id), None, LoginClaims(rows[k], roleValue));
      Deps.GetCurrentActiveUser(Deps.GetCurrentUser(decode, Some(token), rows)) == Success(rows[k])
  {
    Deps.IssuedTokenIdentifiesUser(encode, decode, now, None, LoginClaims(rows[k], roleValue), rows, k);
  }

  /** A login's access token expires after the default lifetime. */
  lemma LoginTokenExpiry(user: User, roleValue: UserRole -> string, now: int)
    ensures AccessClaims(now, IntSubject(user.id), None, LoginClaims(user, roleValue))["exp"] ==
      Time(now + Config.ACCESS_TOKEN_EXPIRE_MINUTES)
  {
    assert "exp" !in LoginClaims(user, roleValue);
  }

  /** The right password for an active account logs in, with the tokens issued for that account. */
  lemma LoginSucceeds(rows: seq<User>, nextId: int, k: int, password: string, ph: PasswordHasher, encode: Claims -> string,
                      now: int, roleValue: UserRole -> string)
    requires UserRowsValid(rows, nextId)
    requires 0 <= k < |rows| && rows[k].isActive
    requires rows[k].hashedPassword == PasswordHash(ph, password) && Sound(ph)
    ensures AuthService.EmailsUnique(rows)
    ensures Login(rows, rows[k].email, password, ph, encode, now, roleValue) ==
      Success(TokenResponse(encode(AccessClaims(now, IntSubject(rows[k].id), None, LoginClaims(rows[k], roleValue))),
                            encode(RefreshClaims(now, IntSubject(rows[k].id))), "bearer"))
  {
    AuthService.UniqueEmailRow(rows, rows[k]);
    assert AuthService.AuthenticateUser(rows, rows[k].email, password, ph) == Some(rows[k]);
  }

  /** `APIKeyResponse`. */
  datatype ApiKeyResponse = ApiKeyResponse(apiKey: string, message: string)

  /**
   * `POST /auth/api-key`: a new key for the authenticated caller, shown once
   * together with the warning to store it.
   */
  method IssueApiKey(users: UserTable, caller: User, token: string, ph: PasswordHasher)
    returns (r: Result<ApiKeyResponse, HttpError>)
    requires users.Valid()
    modifies users
    ensures users.Valid() && users.nextId == old(users.nextId)
    ensures r.Failure? <==> UserIndexById(old(users.rows), caller.id) == -1
    ensures r.Success? ==> r.value == ApiKeyResponse(GenerateApiKey(token), API_KEY_MESSAGE)
    ensures r.Success? ==>
      var i := UserIndexById(old(users.rows), caller.id);
      users.rows == old(users.rows)[i := old(users.rows)[i].(apiKeyHash := Some(PasswordHash(ph, r.value.apiKey)))]
    ensures r.Failure? ==> users.rows == old(users.rows) && r.error == AuthService.USER_NOT_FOUND
  {
    var key := AuthService.GenerateUserApiKey(users, caller.id, token, ph);
    match key
    case Failure(e) => r := Failure(e);
    case Success(k) => r := Success(ApiKeyResponse(k, API_KEY_MESSAGE));
  }

  /** The two texts `logout` answers with; the token itself stays valid until it expires. */
  datatype LogoutResponse = LogoutResponse(message: string, detail: string)

  /** `logout`: nothing is revoked; the caller is told to discard the token. */
  function Logout(caller: Result<User, HttpError>): (r: Result<LogoutResponse, HttpError>)
    ensures r.Failure? <==> caller.Failure?
    ensures caller.Failure? ==> r.error == caller.error
    ensures r.Success? ==> r.value == LogoutResponse("Successfully logged out", "Please discard your access token")
  {
    match caller
    case Failure(e) => Failure(e)
    case Success(_) => Success(LogoutResponse("Successfully logged out", "Please discard your access token"))
  }
}
