/**
 * Access-token claims and the mapping of a decoding outcome to a subject or an
 * HTTP error. Signing and decoding belong to the token library and appear as
 * parameters (`sign`, `decode`); the clock appears as `now`, in whole seconds.
 */
module Tokens {
  import opened Wrappers
  import opened Errors

  /** A claim value: text, a point in time (seconds), or JSON null. */
  datatype ClaimValue = Text(text: string) | Instant(seconds: int) | Null

  type Claims = map<string, ClaimValue>

  /** The lifetime used when no (or a zero) lifetime is given: 15 minutes. */
  const DefaultLifetime := 15 * 60

  const AccessScope := "access_token"

  /** The claim names the issuer always sets. */
  const IssuerClaims: set<string> := {"iat", "exp", "scope"}

  /**
   * Lifetime in seconds. The source tests the optional lifetime for truth, so a
   * lifetime of zero counts as absent.
   */
  function Lifetime(expiresDelta: Option<int>): int {
    if expiresDelta.Some? && expiresDelta.value != 0 then expiresDelta.value else DefaultLifetime
  }

  /**
   * The claims of a new access token: a copy of `data` with the issue time, the
   * expiry time and the scope added, the added claims replacing same-named ones.
   * `data` itself is a value and is never changed.
   */
  function CreateAccessClaims(data: Claims, expiresDelta: Option<int>, now: int): (r: Claims)
    ensures r.Keys == data.Keys + IssuerClaims
    ensures forall k :: k in data && k !in IssuerClaims ==> r[k] == data[k]
    ensures r["iat"] == Instant(now)
    ensures r["scope"] == Text(AccessScope)
    ensures expiresDelta.Some? && expiresDelta.value != 0 ==> r["exp"] == Instant(now + expiresDelta.value)
    ensures expiresDelta.None? || expiresDelta == Some(0) ==> r["exp"] == Instant(now + 900)
  {
    data + map["iat" := Instant(now), "exp" := Instant(now + Lifetime(expiresDelta)), "scope" := Text(AccessScope)]
  }

  /** The outcome of decoding a token: its payload, an expired signature, or any other failure. */
  datatype DecodeResult = Decoded(payload: Claims) | ExpiredSignature | DecodeFailed

  /**
   * The subject a token names. A payload without a subject, or with a null one,
   * is rejected; an expired signature is reported as such; every other decoding
   * failure is not caught and propagates.
   */
  function GetCurrentUserWithToken(token: string, decode: string -> DecodeResult): (r: Result<ClaimValue, Exception>)
    ensures r.Ok? <==> decode(token).Decoded? && "sub" in decode(token).payload && decode(token).payload["sub"] != Null
    ensures r.Ok? ==> r.value == decode(token).payload["sub"]
    ensures decode(token).Decoded? && r.Err? ==> r.error == CouldNotValidate
    ensures decode(token).ExpiredSignature? ==> r == Err(TokenExpired)
    ensures decode(token).DecodeFailed? ==> r == Err(TokenDecodeError)
  {
    match decode(token)
    case Decoded(payload) =>
      var email := if "sub" in payload then payload["sub"] else Null;
      if email == Null then Err(CouldNotValidate) else Ok(email)
    case ExpiredSignature => Err(TokenExpired)
    case DecodeFailed => Err(TokenDecodeError)
  }

  /**
   * The expiry rule of the token library: a token whose `exp` lies strictly
   * before the current time is expired (no leeway).
   */
  predicate ExpiredAt(claims: Claims, at: int) {
    "exp" in claims && claims["exp"].Instant? && claims["exp"].seconds < at
  }

  /**
   * A freshly issued token expires exactly when its lifetime has passed; with a
   * lifetime of zero it is therefore still valid for 15 minutes.
   */
  lemma IssuedTokenExpiry(data: Claims, expiresDelta: Option<int>, now: int, at: int)
    ensures ExpiredAt(CreateAccessClaims(data, expiresDelta, now), at) <==> at > now + Lifetime(expiresDelta)
    ensures expiresDelta == Some(0) ==> (ExpiredAt(CreateAccessClaims(data, expiresDelta, now), at) <==> at > now + DefaultLifetime)
  {
  }

  /**
   * A token issued for a subject, and decoded back to its claims, yields that
   * subject whatever else the caller put in `data`.
   */
  lemma IssuedTokenNamesSubject(
    data: Claims, email: string, expiresDelta: Option<int>, now: int,
    sign: Claims -> string, decode: string -> DecodeResult)
    requires "sub" in data && data["sub"] == Text(email)
    requires decode(sign(CreateAccessClaims(data, expiresDelta, now))) == Decoded(CreateAccessClaims(data, expiresDelta, now))
    ensures GetCurrentUserWithToken(sign(CreateAccessClaims(data, expiresDelta, now)), decode) == Ok(Text(email))
  {
  }
}
