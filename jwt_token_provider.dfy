/** JwtTokenProvider: issuing access tokens, validating them, and turning their claims back
    into an authenticated principal */
module JwtTokenProvider {

  import opened Wrappers
  import opened Errors
  import opened Jwt
  import Text
  import SessionStore

  /** Thirty minutes and eight hours, in milliseconds */
  const ACCESS_TOKEN_EXPIRE_COUNT: int := 30 * 60 * 1000
  const REFRESH_TOKEN_EXPIRE_COUNT: int := 8 * 60 * 60 * 1000
  const TOKEN_TYPE: string := "JWT"
  const GRANT_TYPE: string := "Bearer"
  /** The one authority of a token whose `roles` claim is the empty string */
  const ROLE_DEFAULT: string := "ROLE_DEFAULT"

  const SECRET_REQUIRED: string := "Secret key cannot be null or empty."
  const TOKEN_DATA_REQUIRED: string := "Token data must be present"
  const NO_ROLES: string := "권한 정보가 없는 토큰입니다."
  const INVALID_TOKEN: string := "Invalid JWT Token"
  const EXPIRED_TOKEN: string := "Expired JWT Token"
  const UNSUPPORTED_TOKEN: string := "Unsupported JWT Token"
  const EMPTY_CLAIMS: string := "JWT claims string is empty."
  /** What SimpleGrantedAuthority says of an authority without text */
  const AUTHORITY_REQUIRED: string := "A granted authority textual representation is required"
  /** What Spring Security's User says of a null or empty username */
  const USER_VALUES_REQUIRED: string := "Cannot pass null or empty values to constructor"

  /** An Authentication: the principal's name, its authorities in order, and the credentials */
  datatype Authentication = Authentication(name: string, authorities: seq<string>, credentials: string)

  /** The JwtToken response body; fields never set are null */
  datatype JwtToken = JwtToken(grantType: Option<string>, accessToken: Option<Credential>,
                               refreshToken: Option<Credential>, errorMessage: Option<string>,
                               role: int)

  /** The RefreshToken record */
  datatype RefreshToken = RefreshToken(username: Option<string>, role: int,
                                       refreshToken: Option<Credential>, expiryDate: Option<int>)

  /** The signing key the constructor derives from the configured secret */
  function KeyFor(secretKey: Option<string>): (r: Result<SigningKey, Exception>)
    ensures r.Failure? <==> secretKey.None? || secretKey.value == ""
    ensures r.Failure? ==> r.error == IllegalArgument(SECRET_REQUIRED)
    ensures r.Success? ==> r.value.secret == secretKey.value
  {
    if secretKey.None? || secretKey.value == "" then Failure(IllegalArgument(SECRET_REQUIRED))
    else Success(HmacKey(secretKey.value))
  }

  /** The authorities a `roles` claim decodes to: the empty string means the default role,
      anything else is split on commas, and each piece must have text */
  function AuthoritiesOf(rolesStr: string): (r: Result<seq<string>, Exception>)
    ensures rolesStr == "" ==> r == Success([ROLE_DEFAULT])
    ensures rolesStr != "" ==>
              (r.Success? <==> forall j :: 0 <= j < |Text.JavaSplit(rolesStr, ',')| ==>
                                             !Text.IsBlank(Text.JavaSplit(rolesStr, ',')[j]))
    ensures rolesStr != "" && r.Success? ==> r.value == Text.JavaSplit(rolesStr, ',')
    ensures r.Failure? ==> r.error == IllegalArgument(AUTHORITY_REQUIRED)
  {
    if rolesStr == "" then Success([ROLE_DEFAULT])
    else
      var parts := Text.JavaSplit(rolesStr, ',');
      if forall j :: 0 <= j < |parts| ==> !Text.IsBlank(parts[j]) then Success(parts)
      else Failure(IllegalArgument(AUTHORITY_REQUIRED))
  }

  /** The principal built from claims that parsed: a missing `roles` claim is refused, and the
      principal's name is the subject, which must be non-empty */
  function AuthenticationFromClaims(claims: Claims): (r: Result<Authentication, Exception>)
    ensures claims.roles.None? ==> r == Failure(InvalidToken(NO_ROLES))
    ensures r.Success? <==> claims.roles.Some? && AuthoritiesOf(claims.roles.value).Success?
                            && claims.sub.Some? && claims.sub.value != ""
    ensures r.Success? ==> r.value == Authentication(claims.sub.value,
                                                     AuthoritiesOf(claims.roles.value).value, "")
  {
    if claims.roles.None? then Failure(InvalidToken(NO_ROLES))
    else
      var authorities := AuthoritiesOf(claims.roles.value);
      if authorities.Failure? then Failure(authorities.error)
      else if claims.sub.None? || claims.sub.value == "" then Failure(IllegalArgument(USER_VALUES_REQUIRED))
      else Success(Authentication(claims.sub.value, authorities.value, ""))
  }

  class JwtTokenProvider {
    const key: SigningKey
    /** The session store that holds the refresh tokens */
    const store: SessionStore.Store

    constructor(store: SessionStore.Store, key: SigningKey)
      ensures this.store == store && this.key == key
    {
      this.store := store;
      this.key := key;
    }

    /** The constructor: refuses a null or empty secret */
    static method Create(store: SessionStore.Store, secretKey: Option<string>)
      returns (r: Result<JwtTokenProvider, Exception>)
      ensures r.Failure? <==> KeyFor(secretKey).Failure?
      ensures r.Failure? ==> r.error == KeyFor(secretKey).error
      ensures r.Success? ==> fresh(r.value) && r.value.store == store
                             && r.value.key == KeyFor(secretKey).value
    {
      var k := KeyFor(secretKey);
      if k.Failure? {
        r := Failure(k.error);
      } else {
        var p := new JwtTokenProvider(store, k.value);
        r := Success(p);
      }
    }

    /** The access token generateToken issues at `now` */
    function AccessTokenFor(authentication: Authentication, now: int): Jwt {
      Jwt(TOKEN_TYPE, HS256,
          Claims(SubjectClaim(Some(authentication.name)), Some(Text.Join(authentication.authorities, ',')),
                 Some(now + ACCESS_TOKEN_EXPIRE_COUNT)),
          key)
    }

    /** The refresh token generateToken stores at `now`: no subject and no roles */
    function RefreshTokenFor(now: int): Jwt {
      Jwt(TOKEN_TYPE, HS256, Claims(None, None, Some(now + REFRESH_TOKEN_EXPIRE_COUNT)), key)
    }

    /** generateToken: issues an access token for the authenticated user and replaces that user's
        session entry with a fresh refresh token, which the response does not carry */
    method GenerateToken(authentication: Authentication, now: int) returns (r: Result<JwtToken, Exception>)
      modifies store`entries
      ensures r.Success? <==> store.up
      ensures r.Failure? ==> r.error == DataAccess(StoreUnavailable) && store.entries == old(store.entries)
      ensures r.Success? ==>
                r.value == JwtToken(Some(GRANT_TYPE), Some(Compact(AccessTokenFor(authentication, now))),
                                    None, None, 0)
                && store.entries == SessionStore.Written(old(store.entries), authentication.name,
                                                         Compact(RefreshTokenFor(now)),
                                                         REFRESH_TOKEN_EXPIRE_COUNT, now)
    {
      var accessToken := AccessTokenFor(authentication, now);
      var refreshToken := RefreshTokenFor(now);
      var w := store.Set(Some(authentication.name), Compact(refreshToken), REFRESH_TOKEN_EXPIRE_COUNT, now);
      if w.Failure? {
        r := Failure(w.error);
      } else {
        r := Success(JwtToken(Some(GRANT_TYPE), Some(Compact(accessToken)), None, None, 0));
      }
    }

    /** generateAccessToken: a token carrying only the subject and the expiry, no `roles` */
    function GenerateAccessToken(tokenData: Option<RefreshToken>, now: int): (r: Result<Credential, Exception>)
      ensures tokenData.None? <==> r == Failure(IllegalArgument(TOKEN_DATA_REQUIRED))
      ensures r.Success? ==> r.value.Compact? && r.value.jwt.claims.roles.None?
                             && r.value.jwt.claims.sub == SubjectClaim(tokenData.value.username)
                             && r.value.jwt.claims.exp == Some(now + ACCESS_TOKEN_EXPIRE_COUNT)
                             && r.value.jwt.signedWith == key && r.value.jwt.alg == HS256
    {
      if tokenData.None? then Failure(IllegalArgument(TOKEN_DATA_REQUIRED))
      else
        Success(Compact(Jwt(TOKEN_TYPE, HS256,
                            Claims(SubjectClaim(tokenData.value.username), None,
                                   Some(now + ACCESS_TOKEN_EXPIRE_COUNT)),
                            key)))
    }

    /** parseToken: the strict parse, which throws for an expired token too */
    function ParseToken(token: Option<Credential>, now: int): Result<Claims, Exception> {
      ParseClaimsJws(token, key, now)
    }

    /** getAdminUserInfoFromToken: the subject, through the strict parse */
    function GetAdminUserInfoFromToken(token: Option<Credential>, now: int): (r: Result<Option<string>, Exception>)
      ensures r.Success? <==> Parse(token, key, now).Ok?
      ensures r.Success? ==> r.value == Parse(token, key, now).claims.sub
      ensures r.Failure? ==> r.error == ParseToken(token, now).error
    {
      var claims := ParseToken(token, now);
      if claims.Failure? then Failure(claims.error) else Success(claims.value.sub)
    }

    /** getExpirationDateFromToken: the expiry, through the strict parse */
    function GetExpirationDateFromToken(token: Option<Credential>, now: int): (r: Result<Option<int>, Exception>)
      ensures r.Success? <==> Parse(token, key, now).Ok?
      ensures r.Success? ==> r.value == Parse(token, key, now).claims.exp
      ensures r.Failure? ==> r.error == ParseToken(token, now).error
    {
      var claims := ParseClaimsJws(token, key, now);
      if claims.Failure? then Failure(claims.error) else Success(claims.value.exp)
    }

    /** validateToken: true for a token that parses, an expiry exception for an expired one,
        an InvalidTokenException for the other caught kinds; it never returns false. A bad
        signature is not among the caught kinds and propagates as the parser threw it */
    function ValidateToken(token: Option<Credential>, now: int): (r: Result<bool, Exception>)
      ensures r.Success? ==> r.value
      ensures r.Success? <==> Parse(token, key, now).Ok?
      ensures r == Failure(CustomExpiredJwt(EXPIRED_TOKEN)) <==> Parse(token, key, now).Expired?
      ensures r == Failure(InvalidToken(INVALID_TOKEN)) <==> Parse(token, key, now).Malformed?
      ensures r == Failure(InvalidToken(UNSUPPORTED_TOKEN)) <==> Parse(token, key, now).Unsupported?
      ensures r == Failure(InvalidToken(EMPTY_CLAIMS)) <==> Parse(token, key, now).Empty?
      ensures r == Failure(SignatureFailure(SIGNATURE_MSG)) <==> Parse(token, key, now).BadSig?
    {
      match Parse(token, key, now)
      case Ok(_) => Success(true)
      case Malformed => Failure(InvalidToken(INVALID_TOKEN))
      case Expired(_) => Failure(CustomExpiredJwt(EXPIRED_TOKEN))
      case Unsupported => Failure(InvalidToken(UNSUPPORTED_TOKEN))
      case Empty => Failure(InvalidToken(EMPTY_CLAIMS))
      case BadSig => Failure(ParseClaimsJws(token, key, now).error)
    }

    /** parseClaims: like the strict parse, except that an expired token still yields its claims */
    function ParseClaims(token: Option<Credential>, now: int): (r: Result<Claims, Exception>)
      ensures r.Success? <==> Parse(token, key, now).Ok? || Parse(token, key, now).Expired?
      ensures r.Success? ==> r.value == Parse(token, key, now).claims
      ensures r.Failure? ==> r == ParseToken(token, now)
    {
      var parsed := ParseClaimsJws(token, key, now);
      if parsed.Failure? && parsed.error.ExpiredJwt? then Success(Parse(token, key, now).claims)
      else parsed
    }

    /** What getAuthentication yields for a token */
    function AuthenticationOf(accessToken: Option<Credential>, now: int): Result<Authentication, Exception> {
      var claims := ParseClaims(accessToken, now);
      if claims.Failure? then Failure(claims.error) else AuthenticationFromClaims(claims.value)
    }

    /** getAuthentication: the principal of a token, its authorities collected piece by piece */
    method GetAuthentication(accessToken: Option<Credential>, now: int) returns (r: Result<Authentication, Exception>)
      ensures r == AuthenticationOf(accessToken, now)
    {
      var parsed := ParseClaims(accessToken, now);
      if parsed.Failure? {
        return Failure(parsed.error);
      }
      var claims := parsed.value;
      if claims.roles.None? {
        return Failure(InvalidToken(NO_ROLES));
      }
      var rolesStr := claims.roles.value;
      var authorities: seq<string>;
      if rolesStr == "" {
        authorities := [ROLE_DEFAULT];
      } else {
        var parts := Text.JavaSplit(rolesStr, ',');
        var list: seq<string> := [];
        var i := 0;
        while i < |parts|
          invariant 0 <= i <= |parts|
          invariant list == parts[..i]
          invariant forall j :: 0 <= j < i ==> !Text.IsBlank(parts[j])
        {
          if Text.IsBlank(parts[i]) {
            return Failure(IllegalArgument(AUTHORITY_REQUIRED));
          }
          list := list + [parts[i]];
          i := i + 1;
        }
        assert parts[..i] == parts;
        authorities := list;
      }
      if claims.sub.None? || claims.sub.value == "" {
        return Failure(IllegalArgument(USER_VALUES_REQUIRED));
      }
      r := Success(Authentication(claims.sub.value, authorities, ""));
    }
  }

  /** The access token of a login is valid until it expires, and it authenticates to the
      same name and the same roles, in order */
  lemma IssueThenAuthenticate(p: JwtTokenProvider, authentication: Authentication, now: int, later: int)
    requires !Text.IsBlank(authentication.name)
    requires |authentication.authorities| >= 1
    requires forall i :: 0 <= i < |authentication.authorities| ==>
               ',' !in authentication.authorities[i] && !Text.IsBlank(authentication.authorities[i])
    requires now <= later < now + ACCESS_TOKEN_EXPIRE_COUNT
    ensures p.ValidateToken(Some(Compact(p.AccessTokenFor(authentication, now))), later) == Success(true)
    ensures p.AuthenticationOf(Some(Compact(p.AccessTokenFor(authentication, now))), later) ==
              Success(Authentication(authentication.name, authentication.authorities, ""))
  {
    var roles := authentication.authorities;
    assert forall i :: 0 <= i < |roles| ==> roles[i] != "" by {
      forall i | 0 <= i < |roles| ensures roles[i] != "" {
        assert !Text.IsBlank(roles[i]);
      }
    }
    Text.JavaSplitJoin(roles, ',');
    Text.JoinNonEmpty(roles, ',');
    assert authentication.name != "" by { assert !Text.IsBlank(authentication.name); }
  }

  /** A user with no authorities gets a `roles` claim of "" and so the default role */
  lemma NoAuthoritiesMeansDefaultRole(p: JwtTokenProvider, authentication: Authentication, now: int, later: int)
    requires !Text.IsBlank(authentication.name) && authentication.authorities == []
    requires now <= later < now + ACCESS_TOKEN_EXPIRE_COUNT
    ensures p.AuthenticationOf(Some(Compact(p.AccessTokenFor(authentication, now))), later) ==
              Success(Authentication(authentication.name, [ROLE_DEFAULT], ""))
  {
    assert authentication.name != "" by { assert !Text.IsBlank(authentication.name); }
  }

  /** A renewed token passes validation but carries no `roles`, so no principal can be made of it */
  lemma RenewedTokenHasNoPrincipal(p: JwtTokenProvider, data: RefreshToken, now: int, later: int)
    requires now <= later < now + ACCESS_TOKEN_EXPIRE_COUNT
    ensures p.GenerateAccessToken(Some(data), now).Success?
    ensures p.ValidateToken(Some(p.GenerateAccessToken(Some(data), now).value), later) == Success(true)
    ensures p.AuthenticationOf(Some(p.GenerateAccessToken(Some(data), now).value), later) ==
              Failure(InvalidToken(NO_ROLES))
  {
  }

  /** Past its expiry a token is refused by validation as expired, not as invalid; the
      tolerant parse still yields its claims while the strict parse throws */
  lemma ExpiredIsNotInvalid(p: JwtTokenProvider, authentication: Authentication, now: int, later: int)
    requires later > now + ACCESS_TOKEN_EXPIRE_COUNT
    ensures p.ValidateToken(Some(Compact(p.AccessTokenFor(authentication, now))), later) ==
              Failure(CustomExpiredJwt(EXPIRED_TOKEN))
    ensures p.ParseClaims(Some(Compact(p.AccessTokenFor(authentication, now))), later) ==
              Success(p.AccessTokenFor(authentication, now).claims)
    ensures p.ParseToken(Some(Compact(p.AccessTokenFor(authentication, now))), later) ==
              Failure(ExpiredJwt(EXPIRED_MSG))
    ensures p.GetAdminUserInfoFromToken(Some(Compact(p.AccessTokenFor(authentication, now))), later).Failure?
  {
  }

  /** A token signed with another key is refused, whatever its claims */
  lemma ForeignKeyRefused(p: JwtTokenProvider, t: Jwt, now: int)
    requires t.alg == HS256 && t.signedWith != p.key
    ensures p.ValidateToken(Some(Compact(t)), now).Failure?
    ensures !p.ValidateToken(Some(Compact(t)), now).error.CustomExpiredJwt?
    ensures p.AuthenticationOf(Some(Compact(t)), now).Failure?
  {
  }

  /** Roles with an empty piece in the middle name an authority without text, which is refused */
  lemma EmptyPieceRefused(claims: Claims)
    requires claims.roles == Some("a,,b")
    ensures AuthenticationFromClaims(claims) == Failure(IllegalArgument(AUTHORITY_REQUIRED))
  {
    var s := "a,,b";
    assert s == "a" + [','] + ("" + [','] + "b");
    Text.SplitAllAfterSep("a", "" + [','] + "b", ',');
    Text.SplitAllAfterSep("", "b", ',');
    Text.SplitAllNoSep("b", ',');
    assert ',' in s by { assert s[1] == ','; }
    assert Text.JavaSplit(s, ',')[1] == "";
  }
}
