# Authentication core of an e-commerce backend, modelled in Dafny

The backend lets users sign up and log in, and resolves a bearer token to the
stored user. This project models its four pieces of decision logic:

- **Auth service** (`auth_service.dfy`, module `AuthServices`): a class over the
  user table, a map from email to user. `Signup` is a method that checks for a
  duplicate email and then inserts. `Login`, `GetUserByEmail` and
  `GetCurrentUser` are read-only functions of the table.
- **Generic repository** (`repository.dfy`, module `Repositories`): a class over
  a sequence of rows, where a row maps column names to values. It covers
  pagination that applies only when both bounds are given, exact-match lookup of
  one row or none, the variant that raises "Not found", and `Create`, a method
  that appends one row.
- **Token claims** (`token_service.dfy`, module `Tokens`): the claims of an
  access token. A lifetime of zero falls back to the 15-minute default, because
  the source tests the lifetime for truth. The module also maps a decoding
  outcome to a subject, "Could not validate credentials", "Token has expired",
  or an uncaught library error.
- **Schemas** (`user_schema.dfy`, module `UserSchemas`): the phone validator, the
  name length bounds, the role enumeration and the token response. The phone
  validator is modelled as written: a string that is not exactly ten digits
  makes it return None, and nothing is raised. Its ValueError handler can never
  run.

`errors.dfy` holds the exception kinds and the status/detail pairs the code
raises. `wrappers.dfy` holds `Option` and `Result`.

The password hasher, token signing and decoding, the e-mail syntax check and the
clock are outside the model. They appear as parameters: `hash`, `verify`,
`sign`, `decode`, `validateEmail` and `now` (whole seconds). Two assumptions
about them appear, each only as a `requires` of the lemmas and the method that need it:
- `verify(p, hash(p))`: the hasher accepts a password against its own hash
  (`AuthServices.LoginAfterSignup`, `AuthServices.SignupThenLogin`).
- `decode(sign(c)) == Decoded(c)`: an issued, unexpired token decodes back to
  its claims (`Tokens.IssuedTokenNamesSubject`,
  `AuthServices.LoginTokenResolvesUser`).

Two behaviours of the token code are worth noting:
- On a server whose clock runs on UTC, a lifetime of 0 does not issue an
  already-expired token. `expires_delta = 0` falls back to 15 minutes
  (`Tokens.IssuedTokenExpiry`). On other servers the real lifetime also shifts
  by the UTC offset; see "Left out".
- Only an expired signature is caught. Every other decoding error, including a
  bad signature, propagates uncaught (`TokenDecodeError`).

## Model

| member | source | states |
|---|---|---|
| `UserSchemas.ParseRole` | app/models/enums.py:4-7 | a role is parsed only from its own wire value ("user", "admin", "worker"); any other string gives None |
| `UserSchemas.RoleRoundTrip` | app/models/enums.py:4-7 | parsing the wire value of a role gives back that role |
| `UserSchemas.ValidatePhone` | app/schemas/user.py:13-19 | never raises (the ValueError branch is unreachable); returns a value exactly for strings of ten digits, and then that value is "38" followed by the input (length 12, all digits); any other input gives None |
| `UserSchemas.ValidatePhoneNotIdempotent` | app/schemas/user.py:16-17 | a phone number the validator produced becomes None when validated again (it has 12 digits, not 10) |
| `UserSchemas.ParseUserSchema` | app/schemas/user.py:5-19 | the body is rejected exactly when first_name is outside [2, 50] characters, last_name is outside [5, 100], the email is invalid or the role is unknown; every failing field is named, and only first_name, last_name, email and role can be (never phone_number or password); an accepted body copies the fields, keeps the normalised email and the validated phone, and satisfies the bounds |
| `UserSchemas.ParseTokenSchema` | app/schemas/user.py:27-29 | the token response needs `access_token`, and `token_type` is "bearer" unless the dictionary gives one |
| `Tokens.CreateAccessClaims` | app/utils/auth.py:14-23 | the claims are the caller's claims plus `iat` = now, `scope` = "access_token" and `exp`, the added three overriding same-named keys; `exp` = now + delta for a non-zero delta, now + 900 s when the delta is absent or zero |
| `Tokens.IssuedTokenExpiry` | app/utils/auth.py:17-22 | measured on one clock, with `now` the issue time and `at` the check time, an issued token counts as expired exactly when `at` is later than `now` plus its lifetime, so a lifetime of 0 still gives 15 minutes |
| `Tokens.GetCurrentUserWithToken` | app/utils/auth.py:29-53 | returns the `sub` claim exactly when decoding succeeds and `sub` is present and not null; a decoded payload without a subject raises 401 "Could not validate credentials"; an expired signature raises 401 "Token has expired"; any other decoding failure propagates |
| `Tokens.IssuedTokenNamesSubject` | app/utils/auth.py:14-46 | a token issued with subject `email`, decoded back to its claims, yields `email` |
| `Repositories.FilterMembers` | app/repository/base_repository.py:29-31 | the query returns only stored rows that equal every filter value, includes every such row, and is empty exactly when no row matches |
| `Repositories.FilterCount` | app/repository/base_repository.py:32 | the query returns two rows or more exactly when two distinct positions hold matching rows |
| `Repositories.FilterSnoc` | app/repository/base_repository.py:29-39 | after a row is appended, the query returns the old matches plus the new row exactly when the new row matches |
| `Repositories.InsertedRow` | app/repository/base_repository.py:36-39 | the inserted row has exactly the body's keys plus every column the database assigns a value to; it holds every value of the body, and the database's value in each other column |
| `Repositories.BaseRepository.constructor` | app/repository/base_repository.py:16-18 | the repository serves the given columns and rows |
| `Repositories.BaseRepository.GetMany` | app/repository/base_repository.py:20-27 | with either bound absent, every row; with both present and non-negative, the contiguous slice starting at `offset`, of length min(limit, rows left); a negative bound is rejected; every returned row has only the entity's columns |
| `Repositories.BaseRepository.GetOne` | app/repository/base_repository.py:29-33 | raises InvalidFilterAttribute exactly when the filter names an unknown attribute, and raises nothing else but MultipleResultsFound, which it raises exactly when two positions match; None exactly when no row matches; a row matched at exactly one position is returned, and a returned row is that unique match |
| `Repositories.BaseRepository.GetOneOr404` | app/repository/base_repository.py:42-46 | returns the row matched at exactly one position, and only such a row; 404 "Not found" exactly when no row matches; GetOne's errors pass through unchanged |
| `Repositories.BaseRepository.Create` | app/repository/base_repository.py:35-40 | a body with an unknown key raises and changes nothing; otherwise exactly one row, built from the body, is appended and returned, and earlier rows are untouched |
| `Repositories.CreatedRowIsFound` | app/repository/base_repository.py:29-46 | a row just created that matches a filter no earlier row matched is what GetOne and GetOneOr404 return for that filter |
| `AuthServices.AuthService.constructor` | app/services/auth.py:18-20 | the service starts from a user table keyed by email |
| `AuthServices.AuthService.GetUserByEmail` | app/services/auth.py:41-42 | returns the stored user whose email is the one asked for, or None when there is none |
| `AuthServices.AuthService.Signup` | app/services/auth.py:44-55 | a known email raises 409 "Account already exists" and leaves the table unchanged; a fresh email adds exactly that user, with names, email, phone and role copied from the body and the password replaced by hash(password); all other users unchanged |
| `AuthServices.AuthService.Login` | app/services/auth.py:57-70 | an unknown email raises 401 "Invalid email" whatever the password; a known email whose password does not verify raises 401 "Invalid password"; otherwise the result has the single key `access_token`, a token signed over claims with `sub` = the email; the table is only read |
| `AuthServices.AuthService.GetCurrentUser` | app/services/auth.py:22-39 | token failures propagate unchanged; a subject that names a stored user returns that user; a subject that names no stored user raises 401 "User not found"; a returned user is the stored user whose email is the token's subject |
| `AuthServices.SignupAddsExactlyOne` | app/services/auth.py:50-55 | inserting a fresh email grows the table by exactly one, keeps it keyed by email, and keeps every earlier user |
| `AuthServices.LoginClaimsContent` | app/services/auth.py:67 | a login token's claims are exactly `sub` = the email, `iat` = now, `exp` = now + 15 minutes and `scope` = "access_token" |
| `AuthServices.LoginAfterSignup` | app/services/auth.py:44-70 | once signup has stored hash(p) for an email, login with that email and p returns the access token, given that `verify` accepts a password against its own hash |
| `AuthServices.SignupThenLogin` | app/services/auth.py:44-70 | calling signup with a fresh email and then login with the same email and password returns the access token issued for that email |
| `AuthServices.LoginTokenResolvesUser` | app/services/auth.py:22-70 | the token a successful login returns, decoded back to its claims, resolves to the same stored user |
| `AuthServices.LoginResponseIsBearer` | app/services/auth.py:67-70 | the login response, read as the token schema, carries the issued token with token type "bearer" |

## Left out

- Password hashing (app/utils/hash_password.py) is a salted bcrypt call. It is the parameter `hash`, and verification is the parameter `verify`. Verifying against a malformed stored hash raises in the library; the model treats `verify` as total.
- Token signing and decoding are the parameters `sign` and `decode`. Signature checking, the secret key and the algorithm are not modelled. The library's expiry rule appears only as the predicate `ExpiredAt` (expired when `exp` < now, no leeway).
- The clock is the parameter `now`, in whole seconds. The source reads the clock twice, once for `exp` and once for `iat`, and the model uses one instant for both. The source uses naive local time, and the model does not capture it.
- Tokens.IssuedTokenExpiry: the lemma reads issue time and check time off one clock. In the source, `exp` is stamped in the server's naive local time, but the token library reads that value as UTC and checks it against real UTC time. So the real lifetime shifts by the server's UTC offset. East of UTC a token lives longer. From UTC-0:15 westward, a 15-minute token is already expired when it is issued. The model states the lifetime for a server on UTC only.
- Tokens.CreateAccessClaims: `expires_delta` is an optional float in the source. It is modelled as an optional whole number of seconds, so fractional lifetimes are not captured.
- Signing the claims into the token string is left to the parameter `sign`, applied in `Login`. No separate function models it.
- The e-mail syntax check and its normalisation belong to a foreign validator, the parameter `validateEmail`. The login body's own e-mail validation is not modelled.
- UserSchemas.ValidatePhone: the model counts only ASCII '0'..'9' as digits. The source's `isdigit` also accepts other Unicode digits.
- AuthServices.AuthService.GetCurrentUser: a subject claim that is not text is taken to match no email. Its exact database behaviour is not modelled.
- AuthServices.AuthService.Signup: the source also overwrites the caller's `body.password` with the hash. The model does not capture this, because no caller reads the body afterwards.
- The user entity class is not part of this model. Its fields are taken from the signup schema. Its identifier and timestamps are not modelled for users. For generic rows they are the `generated` values of `Create`.
- The user table is a map keyed by email. This stands for the database's unique constraint. The concurrent-signup race that the constraint resolves, and commit failures in general, are not modelled.
- The async sessions, `commit` and `refresh`, are not modelled. `refresh` is reflected only in the returned row holding the database-assigned values.
- Row order of `get_many` is the order of the model's sequence. The query has no ORDER BY.
- The `unique()` call in `get_one` removes duplicates that joined eager loading produces. No query in the model produces such duplicates.
- A NULL column is represented by the row lacking that key, so no filter value matches NULL. In the source, a filter value of None becomes `IS NULL` and matches rows whose column is NULL.
- Route wiring, dependency injection, CORS and settings loading are not modelled (app/routes/auth.py, app/services/dependencies.py, main.py, app/core/settings.py). This includes the response model that hides the password.
- The ORM entity declarations (app/models/models.py, app/models/base_model.py) are not modelled. The exceptions LoginFailed and UserForbidden in app/services/errors.py are declared but never raised by the core.
- UserSchemas.ParseUserSchema: the input holds every field as a string. Validation also rejects a missing field or a non-string value, including for `phone_number`. The model does not capture those rejections. Its promise that `phone_number` is never named holds for string input only.
- Tokens.CreateAccessClaims: times are unbounded integers. In the source, adding the lifetime to the current time raises an overflow error when the result falls outside the representable date range. The model does not capture this error.
- The secret key and algorithm the token code reads are not declared in app/core/settings.py. As written, every signing and decoding call would fail for lack of them. The model assumes both are configured.
