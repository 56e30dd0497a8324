/** The signed token as an abstract record, and what parsing it yields.
    Signing, compact serialisation and Base64 are left abstract: a credential is either the
    compact form of a JWS built by some signer, or text that is not one. */
module Jwt {

  import opened Wrappers
  import opened Errors
  import Text

  /** The HMAC-SHA key derived from the configured secret */
  datatype SigningKey = HmacKey(secret: string)

  /** HS256 (section 3.2 of RFC 7518), or an unsecured token (alg "none") */
  datatype Algorithm = HS256 | NoSigning

  /** The registered claims `sub` and `exp` (RFC 7519 sections 4.1.2 and 4.1.4) and the private
      `roles` claim; `exp` is an instant in milliseconds */
  datatype Claims = Claims(sub: Option<string>, roles: Option<string>, exp: Option<int>)

  /** A token: header `typ` (RFC 7519 section 5.1), algorithm, claims and the key it was signed with */
  datatype Jwt = Jwt(typ: string, alg: Algorithm, claims: Claims, signedWith: SigningKey)

  /** A token string as carried in a cookie */
  datatype Credential = Compact(jwt: Jwt) | Raw(text: string)
  {
    /** String.isEmpty on the token string; a compact JWS is never empty */
    predicate IsEmpty() { Raw? && text == "" }
  }

  /** What the strict parser (parseClaimsJws) makes of a token */
  datatype ParseOutcome =
    | Ok(claims: Claims)
    | Expired(claims: Claims)   // ExpiredJwtException, which still carries the claims
    | BadSig                    // SignatureException
    | Malformed                 // MalformedJwtException
    | Unsupported               // UnsupportedJwtException
    | Empty                     // IllegalArgumentException: null, empty or blank string

  /** A token is expired once the clock has passed its `exp`; a token without `exp` never expires */
  predicate IsExpiredAt(exp: Option<int>, now: int) {
    exp.Some? && now > exp.value
  }

  /** The parser checks the input text, then the signature of a signed token, then the expiry;
      only a token that has passed all of these is refused for being unsigned */
  function Parse(token: Option<Credential>, key: SigningKey, now: int): (r: ParseOutcome)
    ensures r.Empty? <==> token.None? || (token.value.Raw? && Text.IsBlank(token.value.text))
    ensures r.Malformed? <==> token.Some? && token.value.Raw? && !Text.IsBlank(token.value.text)
    ensures r.BadSig? <==> token.Some? && token.value.Compact? && token.value.jwt.alg == HS256
                            && token.value.jwt.signedWith != key
    ensures r.Expired? <==> token.Some? && token.value.Compact?
                             && (token.value.jwt.alg.NoSigning? || token.value.jwt.signedWith == key)
                             && IsExpiredAt(token.value.jwt.claims.exp, now)
    ensures r.Unsupported? <==> token.Some? && token.value.Compact? && token.value.jwt.alg.NoSigning?
                                 && !IsExpiredAt(token.value.jwt.claims.exp, now)
    ensures r.Ok? <==> token.Some? && token.value.Compact? && token.value.jwt.alg == HS256
                        && token.value.jwt.signedWith == key && !IsExpiredAt(token.value.jwt.claims.exp, now)
    ensures (r.Ok? || r.Expired?) ==> r.claims == token.value.jwt.claims
  {
    match token
    case None => Empty
    case Some(Raw(text)) => if Text.IsBlank(text) then Empty else Malformed
    case Some(Compact(jwt)) =>
      if jwt.alg == HS256 && jwt.signedWith != key then BadSig
      else if IsExpiredAt(jwt.claims.exp, now) then Expired(jwt.claims)
      else if jwt.alg.NoSigning? then Unsupported
      else Ok(jwt.claims)
  }

  /** Stand-ins for the texts of the exceptions the parser library throws; the model does not
      depend on their wording */
  const EXPIRED_MSG: string := "JWT expired"
  const SIGNATURE_MSG: string := "JWT signature does not match locally computed signature."
  const MALFORMED_MSG: string := "Malformed JWT"
  const UNSUPPORTED_MSG: string := "Unsigned Claims JWTs are not supported."
  const EMPTY_MSG: string := "JWT String argument cannot be null or empty."

  /** parseClaimsJws(token).getBody(): the claims, or the exception the parser throws */
  function ParseClaimsJws(token: Option<Credential>, key: SigningKey, now: int): (r: Result<Claims, Exception>)
    ensures r.Success? <==> Parse(token, key, now).Ok?
    ensures r.Success? ==> r.value == Parse(token, key, now).claims
    ensures Parse(token, key, now).Expired? <==> r == Failure(ExpiredJwt(EXPIRED_MSG))
    ensures Parse(token, key, now).BadSig? <==> r == Failure(SignatureFailure(SIGNATURE_MSG))
    ensures Parse(token, key, now).Malformed? <==> r == Failure(MalformedJwt(MALFORMED_MSG))
    ensures Parse(token, key, now).Unsupported? <==> r == Failure(UnsupportedJwt(UNSUPPORTED_MSG))
    ensures Parse(token, key, now).Empty? <==> r == Failure(IllegalArgument(EMPTY_MSG))
  {
    match Parse(token, key, now)
    case Ok(c) => Success(c)
    case Expired(_) => Failure(ExpiredJwt(EXPIRED_MSG))
    case BadSig => Failure(SignatureFailure(SIGNATURE_MSG))
    case Malformed => Failure(MalformedJwt(MALFORMED_MSG))
    case Unsupported => Failure(UnsupportedJwt(UNSUPPORTED_MSG))
    case Empty => Failure(IllegalArgument(EMPTY_MSG))
  }

  /** The builder's setSubject: a subject without text is not set at all */
  function SubjectClaim(name: Option<string>): (r: Option<string>)
    ensures r.Some? <==> name.Some? && !Text.IsBlank(name.value)
    ensures r.Some? ==> r.value == name.value
  {
    if name.Some? && !Text.IsBlank(name.value) then name else None
  }
}
