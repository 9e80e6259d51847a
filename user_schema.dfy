/**
 * Request and response schemas of the user endpoints: the role enumeration,
 * the phone-number validator, the field bounds of the signup body, and the
 * token response whose `token_type` has a default.
 */
module UserSchemas {
  import opened Wrappers

  /** The roles a user can have, with their wire values. */
  datatype Role = User | Admin | Worker

  function RoleValue(r: Role): string {
    match r
    case User => "user"
    case Admin => "admin"
    case Worker => "worker"
  }

  /** Parses a role from its wire value, as the enumeration's lookup by value does. */
  function ParseRole(s: string): (r: Option<Role>)
    ensures r.Some? ==> RoleValue(r.value) == s
    ensures r.None? ==> forall role: Role :: RoleValue(role) != s
  {
    if s == "user" then Some(User)
    else if s == "admin" then Some(Admin)
    else if s == "worker" then Some(Worker)
    else None
  }

  lemma RoleRoundTrip(r: Role)
    ensures ParseRole(RoleValue(r)) == Some(r)
  {
  }

  // ---------------------------------------------------------------- phone

  predicate IsAsciiDigit(c: char) {
    '0' <= c <= '9'
  }

  /** A non-empty string of decimal digits (the string `isdigit` test, on ASCII). */
  predicate IsDigitString(s: string) {
    |s| > 0 && forall i :: 0 <= i < |s| ==> IsAsciiDigit(s[i])
  }

  const PhoneDigits := 10
  const PhonePrefix := "38"

  /** A phone number as the validator stores it: the prefix and ten digits. */
  predicate NormalisedPhone(q: string) {
    |q| == |PhonePrefix| + PhoneDigits && q[..|PhonePrefix|] == PhonePrefix && IsDigitString(q)
  }

  /** What a field validator does: return a (possibly absent) value or raise with a message. */
  datatype Validated<T> = Returned(value: T) | Raised(message: string)

  /** The guarded block of the validator. Neither the digit test nor the length can raise. */
  function PhoneTryBlock(p: string): Validated<Option<string>> {
    if IsDigitString(p) && |p| == PhoneDigits then Returned(Some(PhonePrefix + p))
    else Returned(None)
  }

  /**
   * The phone-number validator. A ten-digit string gets the prefix "38"; any
   * other string falls through the conditional and the validator returns None,
   * so the field silently becomes absent. The handler for ValueError, the only
   * place that would reject the input, is never reached.
   */
  function ValidatePhone(p: string): (r: Validated<Option<string>>)
    ensures r.Returned?
    ensures r.value.Some? <==> |p| == PhoneDigits && IsDigitString(p)
    ensures r.value.Some? ==> NormalisedPhone(r.value.value) && r.value.value[|PhonePrefix|..] == p
  {
    match PhoneTryBlock(p)
    case Returned(v) => Returned(v)
    case Raised(_) => Raised("Invalid phone  format. Phone must be 10 digits.")
  }

  /** A phone number the validator produced is itself rejected (to None) when validated again. */
  lemma ValidatePhoneNotIdempotent(p: string)
    requires ValidatePhone(p).value.Some?
    ensures ValidatePhone(ValidatePhone(p).value.value) == Returned(None)
  {
  }

  // ---------------------------------------------------------- signup body

  const FirstNameMin := 2
  const FirstNameMax := 50
  const LastNameMin := 5
  const LastNameMax := 100

  predicate FirstNameOk(s: string) {
    FirstNameMin <= |s| <= FirstNameMax
  }

  predicate LastNameOk(s: string) {
    LastNameMin <= |s| <= LastNameMax
  }

  /** The signup body as the client sends it, before validation. */
  datatype UserSchemaInput = UserSchemaInput(
    firstName: string, lastName: string, email: string,
    password: string, phoneNumber: string, role: string)

  /** The validated signup body. The phone validator may leave the phone number absent. */
  datatype UserSchema = UserSchema(
    firstName: string, lastName: string, email: string,
    password: string, phoneNumber: Option<string>, role: Role)

  /** What every validated signup body satisfies. */
  predicate ValidUserSchema(u: UserSchema) {
    && FirstNameOk(u.firstName)
    && LastNameOk(u.lastName)
    && (u.phoneNumber.Some? ==> NormalisedPhone(u.phoneNumber.value))
  }

  /** The names of the fields whose validation fails. */
  function FieldErrors(input: UserSchemaInput, validateEmail: string -> Option<string>): set<string> {
    (if FirstNameOk(input.firstName) then {} else {"first_name"})
    + (if LastNameOk(input.lastName) then {} else {"last_name"})
    + (if validateEmail(input.email).Some? then {} else {"email"})
    + (if ParseRole(input.role).Some? then {} else {"role"})
  }

  /**
   * Validation of the signup body. `validateEmail` stands for the e-mail syntax
   * check, which returns the normalised address or None. All failing fields are
   * reported together; the phone number never fails.
   */
  function ParseUserSchema(input: UserSchemaInput, validateEmail: string -> Option<string>)
    : (r: Result<UserSchema, set<string>>)
    ensures r.Err? <==>
      !FirstNameOk(input.firstName) || !LastNameOk(input.lastName)
      || validateEmail(input.email).None? || ParseRole(input.role).None?
    ensures r.Err? ==> r.error != {} && r.error <= {"first_name", "last_name", "email", "role"}
    ensures r.Err? ==> "phone_number" !in r.error && "password" !in r.error
    ensures r.Err? ==> ("first_name" in r.error <==> !FirstNameOk(input.firstName))
    ensures r.Err? ==> ("last_name" in r.error <==> !LastNameOk(input.lastName))
    ensures r.Err? ==> ("email" in r.error <==> validateEmail(input.email).None?)
    ensures r.Err? ==> ("role" in r.error <==> ParseRole(input.role).None?)
    ensures r.Ok? ==> ValidUserSchema(r.value)
    ensures r.Ok? ==>
      && r.value.firstName == input.firstName
      && r.value.lastName == input.lastName
      && Some(r.value.email) == validateEmail(input.email)
      && r.value.password == input.password
      && r.value.phoneNumber == ValidatePhone(input.phoneNumber).value
      && RoleValue(r.value.role) == input.role
  {
    var errors := FieldErrors(input, validateEmail);
    if errors != {} then Err(errors)
    else
      Ok(UserSchema(
        input.firstName, input.lastName, validateEmail(input.email).value,
        input.password, ValidatePhone(input.phoneNumber).value, ParseRole(input.role).value))
  }

  /** The login body. */
  datatype UserLogin = UserLogin(email: string, password: string)

  // ------------------------------------------------------- token response

  datatype TokenSchema = TokenSchema(accessToken: string, tokenType: string)

  const DefaultTokenType := "bearer"

  /** Builds the token response from a dictionary; `token_type` falls back to its default. */
  function ParseTokenSchema(d: map<string, string>): (r: Option<TokenSchema>)
    ensures r.Some? <==> "access_token" in d
    ensures r.Some? ==> r.value.accessToken == d["access_token"]
    ensures r.Some? && "token_type" !in d ==> r.value.tokenType == DefaultTokenType
    ensures r.Some? && "token_type" in d ==> r.value.tokenType == d["token_type"]
  {
    if "access_token" !in d then None
    else Some(TokenSchema(d["access_token"], if "token_type" in d then d["token_type"] else DefaultTokenType))
  }
}
