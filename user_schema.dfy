/**
 * `UserSchema`: the request schema for creating a user.  Field constraints
 * come first (pydantic checks `min_length`/`max_length` before the field
 * validator runs), then `validate_password`'s ordered strength checks.  Whether
 * a text is an e-mail address is decided by the email-validator library and is
 * a parameter here.
 */
module UserSchema {
  import opened Common
  import opened Store

  const PASSWORD_TOO_SHORT := "Password must be at least 8 characters long"
  const PASSWORD_TOO_MANY_BYTES :=
    "Password is too long. Use a maximum of 72 bytes (some special characters count as multiple bytes)."
  const PASSWORD_NEEDS_DIGIT := "Password must contain at least one digit"
  const PASSWORD_NEEDS_UPPER := "Password must contain at least one uppercase letter"
  const PASSWORD_NEEDS_LOWER := "Password must contain at least one lowercase letter"

  /** bcrypt looks at no more than 72 bytes of a password. */
  const MAX_PASSWORD_BYTES := 72

  // ---------------------------------------------------------------------------
  // UTF-8 length

  /** The number of bytes UTF-8 uses for one scalar value. */
  function Utf8Width(c: char): (w: nat)
    ensures 1 <= w <= 4
    ensures w == 1 <==> c as int < 0x80
  {
    if c as int < 0x80 then 1
    else if c as int < 0x800 then 2
    else if c as int < 0x10000 then 3
    else 4
  }

  /** `len(s.encode('utf-8'))`. */
  function Utf8Length(s: string): nat
  {
    Utf8PrefixLength(s, |s|)
  }

  /** The UTF-8 length of the first `n` characters of `s`. */
  function Utf8PrefixLength(s: string, n: nat): nat
    requires n <= |s|
  {
    if n == 0 then 0 else Utf8PrefixLength(s, n - 1) + Utf8Width(s[n - 1])
  }

  /** Every character takes at least one and at most four bytes. */
  lemma Utf8LengthBounds(s: string)
    ensures |s| <= Utf8Length(s) <= 4 * |s|
  {
    Utf8PrefixBounds(s, |s|);
  }

  lemma {:induction false} Utf8PrefixBounds(s: string, n: nat)
    requires n <= |s|
    ensures n <= Utf8PrefixLength(s, n) <= 4 * n
  {
    if n > 0 {
      Utf8PrefixBounds(s, n - 1);
    }
  }

  /** An ASCII text takes exactly one byte per character. */
  lemma AsciiUtf8Length(s: string)
    requires forall k :: 0 <= k < |s| ==> s[k] as int < 0x80
    ensures Utf8Length(s) == |s|
  {
    AsciiUtf8Prefix(s, |s|);
  }

  lemma {:induction false} AsciiUtf8Prefix(s: string, n: nat)
    requires n <= |s|
    requires forall k :: 0 <= k < |s| ==> s[k] as int < 0x80
    ensures Utf8PrefixLength(s, n) == n
  {
    if n > 0 {
      AsciiUtf8Prefix(s, n - 1);
    }
  }

  /** A text whose characters all need three or more bytes takes at least three bytes each. */
  lemma WideUtf8Length(s: string)
    requires forall k :: 0 <= k < |s| ==> s[k] as int >= 0x800
    ensures Utf8Length(s) >= 3 * |s|
  {
    WideUtf8Prefix(s, |s|);
  }

  lemma {:induction false} WideUtf8Prefix(s: string, n: nat)
    requires n <= |s|
    requires forall k :: 0 <= k < |s| ==> s[k] as int >= 0x800
    ensures Utf8PrefixLength(s, n) >= 3 * n
  {
    if n > 0 {
      WideUtf8Prefix(s, n - 1);
    }
  }

  // ---------------------------------------------------------------------------
  // validate_password

  predicate HasDigit(s: string)
  {
    exists k :: 0 <= k < |s| && IsAsciiDigit(s[k])
  }

  predicate HasUpper(s: string)
  {
    exists k :: 0 <= k < |s| && IsAsciiUpper(s[k])
  }

  predicate HasLower(s: string)
  {
    exists k :: 0 <= k < |s| && IsAsciiLower(s[k])
  }

  /**
   * `validate_password`: the first failing check in the order length, byte
   * length, digit, upper case, lower case decides the error; an accepted
   * password is returned unchanged.
   */
  function ValidatePassword(v: string): (r: Result<string, string>)
    ensures r.Success? <==>
      |v| >= 8 && Utf8Length(v) <= MAX_PASSWORD_BYTES && HasDigit(v) && HasUpper(v) && HasLower(v)
    ensures r.Success? ==> r.value == v
    ensures |v| < 8 ==> r == Failure(PASSWORD_TOO_SHORT)
    ensures |v| >= 8 && Utf8Length(v) > MAX_PASSWORD_BYTES ==> r == Failure(PASSWORD_TOO_MANY_BYTES)
    ensures |v| >= 8 && Utf8Length(v) <= MAX_PASSWORD_BYTES && !HasDigit(v) ==>
      r == Failure(PASSWORD_NEEDS_DIGIT)
    ensures |v| >= 8 && Utf8Length(v) <= MAX_PASSWORD_BYTES && HasDigit(v) && !HasUpper(v) ==>
      r == Failure(PASSWORD_NEEDS_UPPER)
    ensures |v| >= 8 && Utf8Length(v) <= MAX_PASSWORD_BYTES && HasDigit(v) && HasUpper(v) && !HasLower(v) ==>
      r == Failure(PASSWORD_NEEDS_LOWER)
  {
    if |v| < 8 then Failure(PASSWORD_TOO_SHORT)
    else if Utf8Length(v) > MAX_PASSWORD_BYTES then Failure(PASSWORD_TOO_MANY_BYTES)
    else if !HasDigit(v) then Failure(PASSWORD_NEEDS_DIGIT)
    else if !HasUpper(v) then Failure(PASSWORD_NEEDS_UPPER)
    else if !HasLower(v) then Failure(PASSWORD_NEEDS_LOWER)
    else Success(v)
  }

  /** More than 72 characters is always more than 72 bytes. */
  lemma LongPasswordRejected(v: string)
    requires |v| > MAX_PASSWORD_BYTES
    ensures ValidatePassword(v) == Failure(PASSWORD_TOO_MANY_BYTES)
  {
    Utf8LengthBounds(v);
  }

  /**
   * Within the 100-character field limit a password can still be refused for
   * its bytes: 25 characters of three bytes each are 75 bytes.
   */
  lemma WidePasswordRejected(v: string)
    requires 24 < |v| <= 100
    requires forall k :: 0 <= k < |v| ==> v[k] as int >= 0x800
    ensures PasswordFieldFits(v)
    ensures ValidatePassword(v) == Failure(PASSWORD_TOO_MANY_BYTES)
  {
    WideUtf8Length(v);
  }

  /** An ASCII password's byte check is its character count. */
  lemma AsciiPasswordBytes(v: string)
    requires forall k :: 0 <= k < |v| ==> v[k] as int < 0x80
    ensures |v| >= 8 ==> (ValidatePassword(v) != Failure(PASSWORD_TOO_MANY_BYTES) <==> |v| <= MAX_PASSWORD_BYTES)
  {
    AsciiUtf8Length(v);
  }

  // ---------------------------------------------------------------------------
  // UserCreate

  /** `username: Field(min_length=3, max_length=100)`. */
  predicate UsernameFits(u: string)
  {
    3 <= |u| <= 100
  }

  /** `password: Field(min_length=8, max_length=100)`. */
  predicate PasswordFieldFits(p: string)
  {
    8 <= |p| <= 100
  }

  /** A validated registration request. */
  datatype UserCreate = UserCreate(email: string, username: string, password: string, role: UserRole)

  /** The password field: its length constraint, then `validate_password`. */
  function PasswordErrors(p: string): (errs: seq<FieldError>)
    ensures errs == [] <==> PasswordFieldFits(p) && ValidatePassword(p).Success?
  {
    var lengthErrs := LengthErrors("password", p, 8, 100);
    if lengthErrs != [] then lengthErrs
    else
      match ValidatePassword(p)
      case Success(_) => []
      case Failure(msg) => [FieldError("password", ValueError(msg))]
  }

  /**
   * `UserCreate(...)`: every field is checked and every failure reported, in
   * field order; an omitted role is `USER`.  `EmailStr` keeps the address
   * the email validator hands back, which `normalizeEmail` stands for: the
   * normalised address (domain lower-cased, a display name dropped), or
   * `None` for text that is not an address.
   */
  function ValidateUserCreate(email: string, normalizeEmail: string -> Option<string>, username: string,
                              password: string, role: Option<UserRole>): (r: Result<UserCreate, seq<FieldError>>)
    ensures r.Success? <==> normalizeEmail(email).Some? && UsernameFits(username) && PasswordFieldFits(password) &&
                            ValidatePassword(password).Success?
    ensures r.Success? ==>
      r.value.email == normalizeEmail(email).value && r.value.username == username && r.value.password == password
    ensures r.Success? ==> r.value.role == (if role.Some? then role.value else USER)
    ensures r.Failure? ==> r.error != []
  {
    var errs := (if normalizeEmail(email).Some? then [] else [FieldError("email", NotAnEmail)]) +
                LengthErrors("username", username, 3, 100) +
                PasswordErrors(password);
    if errs != [] then Failure(errs)
    else Success(UserCreate(normalizeEmail(email).value, username, password, if role.Some? then role.value else USER))
  }

  /** Any password the schema accepts fits bcrypt's 72 bytes. */
  lemma AcceptedPasswordFitsBcrypt(email: string, normalizeEmail: string -> Option<string>, username: string,
                                   password: string, role: Option<UserRole>)
    requires ValidateUserCreate(email, normalizeEmail, username, password, role).Success?
    ensures 8 <= |password| <= MAX_PASSWORD_BYTES
    ensures Utf8Length(password) <= MAX_PASSWORD_BYTES
  {
    AcceptedPasswordBytes(password);
  }

  lemma AcceptedPasswordBytes(password: string)
    requires ValidatePassword(password).Success?
    ensures 8 <= |password| <= MAX_PASSWORD_BYTES
    ensures Utf8Length(password) <= MAX_PASSWORD_BYTES
  {
    Utf8LengthBounds(password);
  }
}
