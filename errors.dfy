/**
 * The exceptions that leave the modelled core. HTTP exceptions carry the status
 * code and detail text the backend sends; the others are raised by the database
 * layer or by the token library and are not caught anywhere in the core.
 */
module Errors {

  datatype Exception =
    | HttpException(status: int, detail: string, bearerChallenge: bool)
      // bearerChallenge: the response carries the header `WWW-Authenticate: Bearer`
    | MultipleResultsFound
      // a "one or none" query matched more than one row
    | InvalidFilterAttribute
      // an exact-match filter names an attribute the entity does not have
    | UnexpectedKeyword
      // the entity constructor was given a keyword that is not one of its columns
    | NegativePagination
      // the database rejects a negative OFFSET or LIMIT
    | TokenDecodeError
      // any token decoding failure other than an expired signature

  /** app/services/errors.py: ErrorNotFound */
  const NotFound := HttpException(404, "Not found", false)

  /** Raised by signup when the email is already registered. */
  const AccountExists := HttpException(409, "Account already exists", false)

  /** Raised by login for an unknown email. */
  const InvalidEmail := HttpException(401, "Invalid email", false)

  /** Raised by login for a wrong password. */
  const InvalidPassword := HttpException(401, "Invalid password", false)

  /** Raised when a valid token names no stored user. */
  const UserNotFound := HttpException(401, "User not found", true)

  /** Raised when a decoded token has no subject. */
  const CouldNotValidate := HttpException(401, "Could not validate credentials", true)

  /** Raised when the token's expiry time has passed. */
  const TokenExpired := HttpException(401, "Token has expired", true)
}
