/**
 * `AuthService`: registering a user, checking a login, and issuing an API key,
 * over the users table.
 */
module AuthService {
  import opened Common
  import opened Store
  import opened Security
  import UserSchema

  const EMAIL_TAKEN := HttpError(BAD_REQUEST, "Email already registered")
  const USERNAME_TAKEN := HttpError(BAD_REQUEST, "Username already taken")
  const USER_NOT_FOUND := HttpError(NOT_FOUND, "User not found")

  /** The row a successful registration inserts. */
  function NewUser(id: int, data: UserSchema.UserCreate, ph: PasswordHasher): (u: User)
    ensures u.id == id && u.email == data.email && u.username == data.username && u.role == data.role
    ensures u.hashedPassword == PasswordHash(ph, data.password)
    ensures u.isActive && !u.isVerified && u.apiKeyHash.None?
  {
    User(id, data.email, data.username, PasswordHash(ph, data.password), data.role, true, false, None)
  }

  /**
   * `register_user`: a taken email is refused first, then a taken username; a
   * failure of the password hasher (`hashError`) becomes 400 with its message;
   * otherwise one active, unverified row holding the password's hash is added.
   */
  method RegisterUser(users: UserTable, data: UserSchema.UserCreate, ph: PasswordHasher, hashError: Option<string>)
    returns (r: Result<User, HttpError>)
    requires users.Valid()
    modifies users
    ensures users.Valid()
    ensures UserWhere(old(users.rows), EmailColumn, data.email).Some? ==> r == Failure(EMAIL_TAKEN)
    ensures (UserWhere(old(users.rows), EmailColumn, data.email).None? &&
             UserWhere(old(users.rows), UsernameColumn, data.username).Some?) ==> r == Failure(USERNAME_TAKEN)
    ensures (UserWhere(old(users.rows), EmailColumn, data.email).None? &&
             UserWhere(old(users.rows), UsernameColumn, data.username).None? &&
             hashError.Some?) ==> r == Failure(HttpError(BAD_REQUEST, hashError.value))
    ensures r.Success? <==>
      UserWhere(old(users.rows), EmailColumn, data.email).None? &&
      UserWhere(old(users.rows), UsernameColumn, data.username).None? && hashError.None?
    ensures r.Success? ==>
      (r.value == NewUser(old(users.nextId), data, ph) &&
       users.rows == old(users.rows) + [r.value] && users.nextId == old(users.nextId) + 1)
    ensures r.Failure? ==> users.rows == old(users.rows) && users.nextId == old(users.nextId)
  {
    if UserWhere(users.rows, EmailColumn, data.email).Some? {
      return Failure(EMAIL_TAKEN);
    }
    if UserWhere(users.rows, UsernameColumn, data.username).Some? {
      return Failure(USERNAME_TAKEN);
    }
    if hashError.Some? {
      return Failure(HttpError(BAD_REQUEST, hashError.value));
    }
    var user := NewUser(users.nextId, data, ph);
    AppendKeepsUsersValid(users.rows, users.nextId, user);
    users.rows := users.rows + [user];
    users.nextId := users.nextId + 1;
    r := Success(user);
  }

  /**
   * `authenticate_user`: the user with that email, provided the password
   * checks out against the stored hash.  Whether the account is active is not
   * looked at here.
   */
  function AuthenticateUser(rows: seq<User>, email: string, password: string, ph: PasswordHasher): (r: Option<User>)
    requires EmailsUnique(rows)
    ensures r.Some? ==> r.value in rows && r.value.email == email &&
                        VerifyPassword(ph, password, r.value.hashedPassword)
    ensures r.None? <==> forall u :: u in rows && u.email == email ==> !VerifyPassword(ph, password, u.hashedPassword)
  {
    match UserWhere(rows, EmailColumn, email)
    case None => None
    case Some(user) =>
      UniqueEmailRow(rows, user);
      if VerifyPassword(ph, password, user.hashedPassword) then Some(user) else None
  }

  /** At most one row per email: `scalar_one_or_none` raises on a second one. */
  predicate EmailsUnique(rows: seq<User>)
  {
    forall i, j :: 0 <= i < j < |rows| ==> rows[i].email != rows[j].email
  }

  /** With unique emails, the row found by email is the only one with that email. */
  lemma UniqueEmailRow(rows: seq<User>, user: User)
    requires EmailsUnique(rows)
    requires user in rows
    ensures forall u :: u in rows && u.email == user.email ==> u == user
  {
    forall u | u in rows && u.email == user.email
      ensures u == user
    {
      var i :| 0 <= i < |rows| && rows[i] == u;
      var j :| 0 <= j < |rows| && rows[j] == user;
      assert i == j;
    }
  }

  /** A user who has just registered can log in with the same password. */
  lemma RegisteredUserAuthenticates(rows: seq<User>, nextId: int, data: UserSchema.UserCreate, ph: PasswordHasher)
    requires UserRowsValid(rows, nextId)
    requires UserWhere(rows, EmailColumn, data.email).None?
    requires UserWhere(rows, UsernameColumn, data.username).None?
    requires Sound(ph)
    ensures UserRowsValid(rows + [NewUser(nextId, data, ph)], nextId + 1)
    ensures AuthenticateUser(rows + [NewUser(nextId, data, ph)], data.email, data.password, ph) ==
      Some(NewUser(nextId, data, ph))
  {
    var user := NewUser(nextId, data, ph);
    AppendKeepsUsersValid(rows, nextId, user);
    var rows' := rows + [user];
    assert UserWhere(rows', EmailColumn, data.email) == Some(user) by {
      assert forall k :: 0 <= k < |rows| ==> rows'[k].email != data.email;
      assert rows'[|rows|] == user;
    }
  }

  /**
   * Two spellings of one mailbox (`a@X.com`, then `a@x.com`) validate to the
   * same stored address, so once the first is registered the lookup finds
   * it for the second, which `RegisterUser` then refuses as an email already
   * registered, whatever its username.
   */
  lemma SecondSpellingIsTaken(rows: seq<User>, nextId: int, ph: PasswordHasher,
                              normalizeEmail: string -> Option<string>, e1: string, e2: string,
                              u1: string, u2: string, p1: string, p2: string, r1: Option<UserRole>, r2: Option<UserRole>)
    requires normalizeEmail(e1) == normalizeEmail(e2)
    requires UserSchema.ValidateUserCreate(e1, normalizeEmail, u1, p1, r1).Success?
    requires UserSchema.ValidateUserCreate(e2, normalizeEmail, u2, p2, r2).Success?
    ensures var first := NewUser(nextId, UserSchema.ValidateUserCreate(e1, normalizeEmail, u1, p1, r1).value, ph);
      UserWhere(rows + [first], EmailColumn, UserSchema.ValidateUserCreate(e2, normalizeEmail, u2, p2, r2).value.email).Some?
  {
    var first := NewUser(nextId, UserSchema.ValidateUserCreate(e1, normalizeEmail, u1, p1, r1).value, ph);
    assert (rows + [first])[|rows|] == first;
  }

  /** A row with the next id and an email and username nobody has keeps the table valid. */
  lemma AppendKeepsUsersValid(rows: seq<User>, nextId: int, user: User)
    requires UserRowsValid(rows, nextId) && user.id == nextId
    requires forall k :: 0 <= k < |rows| ==> rows[k].email != user.email && rows[k].username != user.username
    ensures UserRowsValid(rows + [user], nextId + 1)
  {
    var rows' := rows + [user];
    forall i, j | 0 <= i < j < |rows'|
      ensures rows'[i].id != rows'[j].id && rows'[i].email != rows'[j].email && rows'[i].username != rows'[j].username
    {
      assert rows'[i] == rows[i];
    }
  }

  /**
   * `generate_user_api_key`: 404 for an unknown id; otherwise the user's stored
   * key hash is replaced by the hash of a fresh key, which is returned in clear.
   */
  method GenerateUserApiKey(users: UserTable, userId: int, token: string, ph: PasswordHasher)
    returns (r: Result<string, HttpError>)
    requires users.Valid()
    modifies users
    ensures users.Valid() && users.nextId == old(users.nextId)
    ensures r.Failure? <==> UserIndexById(old(users.rows), userId) == -1
    ensures r.Failure? ==> r.error == USER_NOT_FOUND && users.rows == old(users.rows)
    ensures r.Success? ==> r.value == GenerateApiKey(token)
    ensures r.Success? ==>
      var i := UserIndexById(old(users.rows), userId);
      users.rows == old(users.rows)[i := old(users.rows)[i].(apiKeyHash := Some(PasswordHash(ph, r.value)))]
  {
    var i := UserIndexById(users.rows, userId);
    if i == -1 {
      return Failure(USER_NOT_FOUND);
    }
    var key := GenerateApiKey(token);
    users.rows := users.rows[i := users.rows[i].(apiKeyHash := Some(PasswordHash(ph, key)))];
    r := Success(key);
  }

  /**
   * After a new key is issued, that key checks out for the user and, with a
   * binding hasher, every other key, the previous one included, no longer does.
   */
  lemma OnlyNewestKeyVerifies(ph: PasswordHasher, user: User, token: string, otherKey: string)
    requires Sound(ph) && Binding(ph)
    requires user.apiKeyHash == Some(PasswordHash(ph, GenerateApiKey(token)))
    ensures VerifyApiKey(ph, GenerateApiKey(token), user.apiKeyHash.value)
    ensures otherKey != GenerateApiKey(token) ==> !VerifyApiKey(ph, otherKey, user.apiKeyHash.value)
  {
    ApiKeyRoundTrip(ph, token, otherKey);
  }
}
