/**
 * The authentication service over the user table: signup (uniqueness check,
 * hash, insert), login (email check, password check, token issue) and the
 * resolution of a bearer token to the stored user. The table is a map from
 * email to user, which is the unique constraint on the email column.
 * `hash` and `verify` stand for the password hasher, `sign` and `decode` for the
 * token library, `now` for the clock.
 */
module AuthServices {
  import opened Wrappers
  import opened Errors
  import opened Tokens
  import UserSchemas

  /** A stored user: the signup fields, with the password replaced by its hash. */
  datatype User = User(
    firstName: string, lastName: string, email: string,
    passwordHash: string, phoneNumber: Option<string>, role: UserSchemas.Role)

  /** Every stored user sits under its own email. */
  ghost predicate KeyedByEmail(users: map<string, User>) {
    forall e :: e in users ==> users[e].email == e
  }

  /** The user row built from a validated signup body once its password is hashed. */
  function NewUser(body: UserSchemas.UserSchema, hash: string -> string): User {
    User(body.firstName, body.lastName, body.email, hash(body.password), body.phoneNumber, body.role)
  }

  /** The claims of the token a login issues for `email` at time `now` (default lifetime). */
  function LoginClaims(email: string, now: int): Claims {
    CreateAccessClaims(map["sub" := Text(email)], None, now)
  }

  class AuthService {
    var users: map<string, User>

    ghost predicate Valid()
      reads this
    {
      KeyedByEmail(users)
    }

    constructor (users: map<string, User>)
      requires KeyedByEmail(users)
      ensures Valid() && this.users == users
    {
      this.users := users;
    }

    /** The stored user with this email, if any. */
    function GetUserByEmail(email: string): (r: Option<User>)
      reads this
      requires Valid()
      ensures r.Some? <==> email in users
      ensures r.Some? ==> r.value.email == email && users[email] == r.value
    {
      if email in users then Some(users[email]) else None
    }

    /**
     * Registers a user. A known email raises 409 and changes nothing; otherwise
     * exactly one user is added, with the body's fields and the hash of its
     * password, and every other stored user is left as it was.
     */
    method Signup(body: UserSchemas.UserSchema, hash: string -> string) returns (r: Result<User, Exception>)
      requires Valid()
      modifies this
      ensures Valid()
      ensures body.email in old(users) ==> r == Err(AccountExists) && users == old(users)
      ensures body.email !in old(users) ==>
        && r.Ok?
        && r.value.firstName == body.firstName
        && r.value.lastName == body.lastName
        && r.value.email == body.email
        && r.value.passwordHash == hash(body.password)
        && r.value.phoneNumber == body.phoneNumber
        && r.value.role == body.role
        && users == old(users)[body.email := r.value]
    {
      var existing := GetUserByEmail(body.email);
      if existing.Some? {
        return Err(AccountExists);
      }
      var user := NewUser(body, hash);
      users := users[body.email := user];
      r := Ok(user);
    }

    /**
     * Logs a user in. An unknown email raises "Invalid email" before the password
     * is looked at; a password that does not verify against the stored hash
     * raises "Invalid password"; otherwise the result holds only the access token
     * issued for the user's email. Nothing is stored.
     */
    function Login(body: UserSchemas.UserLogin, verify: (string, string) -> bool, sign: Claims -> string, now: int)
      : (r: Result<map<string, string>, Exception>)
      reads this
      requires Valid()
      ensures body.email !in users ==> r == Err(InvalidEmail)
      ensures body.email in users && !verify(body.password, users[body.email].passwordHash) ==> r == Err(InvalidPassword)
      ensures r.Ok? <==> body.email in users && verify(body.password, users[body.email].passwordHash)
      ensures r.Ok? ==> r.value.Keys == {"access_token"} && r.value["access_token"] == sign(LoginClaims(body.email, now))
    {
      match GetUserByEmail(body.email)
      case None => Err(InvalidEmail)
      case Some(user) =>
        if !verify(body.password, user.passwordHash) then Err(InvalidPassword)
        else Ok(map["access_token" := sign(LoginClaims(user.email, now))])
    }

    /**
     * The user a bearer token belongs to. Token failures propagate as they are;
     * a subject that names no stored user raises "User not found". A subject
     * that is not text matches no email.
     */
    function GetCurrentUser(token: string, decode: string -> DecodeResult): (r: Result<User, Exception>)
      reads this
      requires Valid()
      ensures var s := GetCurrentUserWithToken(token, decode); s.Err? ==> r == Err(s.error)
      ensures var s := GetCurrentUserWithToken(token, decode);
        s.Ok? && !(s.value.Text? && s.value.text in users) ==> r == Err(UserNotFound)
      ensures var s := GetCurrentUserWithToken(token, decode);
        s.Ok? && s.value.Text? && s.value.text in users ==> r == Ok(users[s.value.text])
      ensures r.Ok? ==>
        && GetCurrentUserWithToken(token, decode) == Ok(Text(r.value.email))
        && r.value.email in users && users[r.value.email] == r.value
    {
      match GetCurrentUserWithToken(token, decode)
      case Err(e) => Err(e)
      case Ok(subject) =>
        var found := if subject.Text? then GetUserByEmail(subject.text) else None;
        if found.None? then Err(UserNotFound) else Ok(found.value)
    }
  }

  /** Signup of a fresh email grows the table by exactly one user and keeps every other user. */
  lemma SignupAddsExactlyOne(before: map<string, User>, u: User)
    requires KeyedByEmail(before) && u.email !in before
    ensures var after := before[u.email := u];
      && KeyedByEmail(after)
      && after.Keys == before.Keys + {u.email}
      && |after| == |before| + 1
      && forall e :: e in before ==> after[e] == before[e]
  {
  }

  /** The token a login issues names the email as subject and lives for 15 minutes. */
  lemma LoginClaimsContent(email: string, now: int)
    ensures LoginClaims(email, now).Keys == {"sub", "iat", "exp", "scope"}
    ensures LoginClaims(email, now)["sub"] == Text(email)
    ensures LoginClaims(email, now)["iat"] == Instant(now)
    ensures LoginClaims(email, now)["exp"] == Instant(now + DefaultLifetime)
    ensures LoginClaims(email, now)["scope"] == Text(AccessScope)
  {
  }

  /**
   * After a signup has stored the hash of a password, logging in with that
   * email and password succeeds, provided the hasher verifies a password
   * against its own hash.
   */
  lemma LoginAfterSignup(
    svc: AuthService, body: UserSchemas.UserSchema, hash: string -> string,
    verify: (string, string) -> bool, sign: Claims -> string, now: int)
    requires svc.Valid()
    requires body.email in svc.users && svc.users[body.email].passwordHash == hash(body.password)
    requires verify(body.password, hash(body.password))
    ensures svc.Login(UserSchemas.UserLogin(body.email, body.password), verify, sign, now)
      == Ok(map["access_token" := sign(LoginClaims(body.email, now))])
  {
  }

  /** A signup of a fresh email followed by a login with the same credentials returns the access token. */
  method SignupThenLogin(
    svc: AuthService, body: UserSchemas.UserSchema, hash: string -> string,
    verify: (string, string) -> bool, sign: Claims -> string, now: int)
    returns (r: Result<map<string, string>, Exception>)
    requires svc.Valid() && body.email !in svc.users
    requires verify(body.password, hash(body.password))
    modifies svc
    ensures svc.Valid() && body.email in svc.users
    ensures r == Ok(map["access_token" := sign(LoginClaims(body.email, now))])
  {
    var created := svc.Signup(body, hash);
    LoginAfterSignup(svc, body, hash, verify, sign, now);
    r := svc.Login(UserSchemas.UserLogin(body.email, body.password), verify, sign, now);
  }

  /**
   * The token a successful login returns resolves back to the same stored user,
   * provided decoding gives back the signed claims.
   */
  lemma LoginTokenResolvesUser(
    svc: AuthService, body: UserSchemas.UserLogin,
    verify: (string, string) -> bool, sign: Claims -> string, decode: string -> DecodeResult, now: int)
    requires svc.Valid()
    requires svc.Login(body, verify, sign, now).Ok?
    requires decode(sign(LoginClaims(body.email, now))) == Decoded(LoginClaims(body.email, now))
    ensures svc.GetCurrentUser(svc.Login(body, verify, sign, now).value["access_token"], decode)
      == Ok(svc.users[body.email])
  {
  }

  /** The login response, read as the token schema, has token type "bearer". */
  lemma LoginResponseIsBearer(
    svc: AuthService, body: UserSchemas.UserLogin,
    verify: (string, string) -> bool, sign: Claims -> string, now: int)
    requires svc.Valid()
    requires svc.Login(body, verify, sign, now).Ok?
    ensures UserSchemas.ParseTokenSchema(svc.Login(body, verify, sign, now).value)
      == Some(UserSchemas.TokenSchema(sign(LoginClaims(body.email, now)), UserSchemas.DefaultTokenType))
  {
  }
}
