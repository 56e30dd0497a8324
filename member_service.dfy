/** Login and access-token renewal */
module MemberService {

  import opened Wrappers
  import opened Errors
  import opened Jwt
  import opened Http
  import Text
  import EmailUtils
  import JwtTokenUtil
  import SessionStore
  import PasswordEncoder
  import opened UserEntity
  import AccountRepository
  import CustomUserDetailsService
  import opened JwtTokenProvider
  import JwtAuthenticationFilter

  const INVALID_CREDENTIALS: string := "Authentication failed."
  const INVALID_EMAIL: string := "The ID must be in the form of an email."

  /** What the password-checking authentication provider says for an unknown user or a wrong
      password, and the name it uses for a null one */
  const BAD_CREDENTIALS: string := "Bad credentials"
  const NONE_PROVIDED: string := "NONE_PROVIDED"

  /** The reply for a malformed id and for a failed authentication: only the message is set */
  function ErrorJwtToken(message: string): (t: JwtToken)
    ensures t.errorMessage == Some(message) && t.accessToken.None? && t.grantType.None? && t.refreshToken.None?
  {
    JwtToken(None, None, None, Some(message), 0)
  }

  /** The authentication manager: load the user, then compare the presented password with the
      stored one; every failure is an authentication failure */
  function Authenticate(rows: map<string, UserRow>, up: bool, username: Option<string>, password: Option<string>)
    : (r: Result<Authentication, Exception>)
    ensures r.Failure? ==> r.error.IsAuthenticationException()
    ensures r.Success? <==>
              var loaded := CustomUserDetailsService.LoadUserByUsername(rows, up, Some(NullName(username)));
              loaded.Success? && password.Some? && PasswordEncoder.Matches(password.value, Some(loaded.value.password))
    ensures r.Success? ==>
              var loaded := CustomUserDetailsService.LoadUserByUsername(rows, up, Some(NullName(username)));
              r.value == Authentication(loaded.value.username, [], "")
  {
    var loaded := CustomUserDetailsService.LoadUserByUsername(rows, up, Some(NullName(username)));
    if loaded.Failure? then
      if loaded.error.UsernameNotFound? then Failure(BadCredentials(BAD_CREDENTIALS))
      else Failure(InternalAuthenticationService(loaded.error.msg))
    else if password.None? || !PasswordEncoder.Matches(password.value, Some(loaded.value.password)) then
      Failure(BadCredentials(BAD_CREDENTIALS))
    else Success(Authentication(loaded.value.username, loaded.value.authorities, ""))
  }

  /** The name the provider looks up */
  function NullName(username: Option<string>): string {
    if username.Some? then username.value else NONE_PROVIDED
  }

  /** A valid e-mail address is never blank */
  lemma ValidEmailNotBlank(s: string)
    requires EmailUtils.IsValidEmail(Some(s))
    ensures !Text.IsBlank(s)
  {
    EmailUtils.ValidEmailShape(s);
  }

  class MemberService {
    const provider: JwtTokenProvider
    const users: AccountRepository.UserTable

    constructor (provider: JwtTokenProvider, users: AccountRepository.UserTable)
      ensures this.provider == provider && this.users == users
    {
      this.provider := provider;
      this.users := users;
    }

    /** The reply login gives: an error reply for a malformed id or a failed authentication,
        the store's failure when the session cannot be written, else the issued access token */
    function SignInResult(user: UserRow, now: int): (r: Result<JwtToken, Exception>)
      reads users, provider.store
      ensures !EmailUtils.IsValidEmail(user.userId) ==> r == Success(ErrorJwtToken(INVALID_EMAIL))
      ensures EmailUtils.IsValidEmail(user.userId)
              && Authenticate(users.rows, users.up, user.userId, user.userPassword).Failure? ==>
                r == Success(ErrorJwtToken(INVALID_CREDENTIALS))
      ensures r.Success? && r.value.accessToken.Some? ==>
                var a := Authenticate(users.rows, users.up, user.userId, user.userPassword);
                EmailUtils.IsValidEmail(user.userId) && a.Success? && provider.store.up
                && r.value == JwtToken(Some(GRANT_TYPE), Some(Compact(provider.AccessTokenFor(a.value, now))),
                                       None, None, 0)
      ensures EmailUtils.IsValidEmail(user.userId)
              && Authenticate(users.rows, users.up, user.userId, user.userPassword).Success? ==>
                var a := Authenticate(users.rows, users.up, user.userId, user.userPassword);
                (provider.store.up ==>
                   r == Success(JwtToken(Some(GRANT_TYPE), Some(Compact(provider.AccessTokenFor(a.value, now))),
                                         None, None, 0)))
                && (!provider.store.up ==> r == Failure(DataAccess(StoreUnavailable)))
      ensures r.Failure? ==> r.error == DataAccess(StoreUnavailable)
    {
      if !EmailUtils.IsValidEmail(user.userId) then Success(ErrorJwtToken(INVALID_EMAIL))
      else
        var a := Authenticate(users.rows, users.up, user.userId, user.userPassword);
        if a.Failure? then Success(ErrorJwtToken(INVALID_CREDENTIALS))
        else if !provider.store.up then Failure(DataAccess(StoreUnavailable))
        else Success(JwtToken(Some(GRANT_TYPE), Some(Compact(provider.AccessTokenFor(a.value, now))), None, None, 0))
    }

    /** Whether login writes the session: only for a well-formed id that authenticates */
    predicate SignInWrites(user: UserRow)
      reads users, provider.store
    {
      EmailUtils.IsValidEmail(user.userId)
      && Authenticate(users.rows, users.up, user.userId, user.userPassword).Success?
      && provider.store.up
    }

    /** signInAndGenerateJwtToken: a malformed id and a failed authentication give an error
        reply and touch no session; a successful one gives exactly what generateToken gives,
        which replaces the user's session entry */
    method SignInAndGenerateJwtToken(user: UserRow, now: int) returns (r: Result<JwtToken, Exception>)
      modifies provider.store`entries
      ensures r == old(SignInResult(user, now))
      ensures !old(SignInWrites(user)) ==> provider.store.entries == old(provider.store.entries)
      ensures old(SignInWrites(user)) ==>
                provider.store.entries ==
                  SessionStore.Written(old(provider.store.entries),
                                       old(Authenticate(users.rows, users.up, user.userId, user.userPassword)).value.name,
                                       Compact(provider.RefreshTokenFor(now)), REFRESH_TOKEN_EXPIRE_COUNT, now)
    {
      if !EmailUtils.IsValidEmail(user.userId) {
        return Success(ErrorJwtToken(INVALID_EMAIL));
      }
      var a := Authenticate(users.rows, users.up, user.userId, user.userPassword);
      if a.Failure? {
        return Success(ErrorJwtToken(INVALID_CREDENTIALS));
      }
      r := provider.GenerateToken(a.value, now);
    }

    /** What renewal answers for the given access token: the strict parse names the user, whose
        session entry must be live; the new token carries the id of the stored user */
    function RenewalOf(accessToken: Option<Credential>, now: int): (r: Result<Option<JwtToken>, Exception>)
      reads provider.store, users
      ensures provider.GetAdminUserInfoFromToken(accessToken, now).Failure? ==>
                r == Failure(provider.GetAdminUserInfoFromToken(accessToken, now).error)
      ensures r.Success? && r.value.Some? ==>
                var id := provider.GetAdminUserInfoFromToken(accessToken, now);
                id.Success? && id.value.Some? && provider.store.up
                && SessionStore.Live(provider.store.entries, id.value.value, now).Some?
                && users.up && id.value.value in users.rows
                && r.value.value == JwtToken(None, Some(Compact(Jwt(TOKEN_TYPE, HS256,
                                       Claims(SubjectClaim(users.rows[id.value.value].userId), None,
                                              Some(now + ACCESS_TOKEN_EXPIRE_COUNT)),
                                       provider.key))), None, None, 0)
    {
      var userId := provider.GetAdminUserInfoFromToken(accessToken, now);
      if userId.Failure? then Failure(userId.error)
      else
        var refresh := SessionStore.GetResult(provider.store.entries, provider.store.up, userId.value, now);
        if refresh.Failure? then Failure(refresh.error)
        else if refresh.value.None? then Success(None)
        else if !users.up then Failure(DataAccess(StoreUnavailable))
        else
          var user := AccountRepository.Lookup(users.rows, userId.value);
          var data := if user.Some? then Some(RefreshToken(AccountRepository.Credentials(user.value).userId, 0, None, None))
                      else None;
          var token := provider.GenerateAccessToken(data, now);
          if token.Failure? then Failure(token.error)
          else Success(Some(JwtToken(None, Some(token.value), None, None, 0)))
    }

    /** getAccessToken: reads the store and the table and writes nothing */
    method GetAccessToken(request: Request, now: int) returns (r: Result<Option<JwtToken>, Exception>)
      ensures r == RenewalOf(JwtTokenUtil.ExtractTokenFromCookies(request.cookies), now)
    {
      var accessToken := JwtTokenUtil.ExtractTokenFromCookies(request.cookies);
      var userId := provider.GetAdminUserInfoFromToken(accessToken, now);
      if userId.Failure? {
        return Failure(userId.error);
      }
      var refresh := provider.store.Get(userId.value, now);
      if refresh.Failure? {
        return Failure(refresh.error);
      }
      if refresh.value.None? {
        return Success(None);
      }
      var user := users.FindCredentialsByUserId(userId.value);
      if user.Failure? {
        return Failure(user.error);
      }
      var data := if user.value.Some? then Some(RefreshToken(user.value.value.userId, 0, None, None)) else None;
      var token := provider.GenerateAccessToken(data, now);
      if token.Failure? {
        return Failure(token.error);
      }
      r := Success(Some(JwtToken(None, Some(token.value), None, None, 0)));
    }
  }

  /** Renewal reads the token through the strict parse: an expired token raises the expiry
      failure whatever the session store holds */
  lemma ExpiredTokenNotRenewed(m: MemberService, t: Jwt, now: int)
    requires t.alg == HS256 && t.signedWith == m.provider.key && IsExpiredAt(t.claims.exp, now)
    ensures m.RenewalOf(Some(Compact(t)), now) == Failure(ExpiredJwt(EXPIRED_MSG))
  {
  }

  /** With no live session entry for the token's user there is nothing to renew */
  lemma NoSessionNoRenewal(m: MemberService, token: Option<Credential>, now: int)
    requires m.provider.GetAdminUserInfoFromToken(token, now).Success?
    requires var id := m.provider.GetAdminUserInfoFromToken(token, now).value;
             m.provider.store.up && id.Some? && SessionStore.Live(m.provider.store.entries, id.value, now).None?
    ensures m.RenewalOf(token, now) == Success(None)
  {
  }

  /** A token naming a user with a live session entry in a reachable store, who is stored in a
      reachable table, is renewed: the reply holds only a fresh access token for that user, with
      no roles and the access-token lifetime */
  lemma RenewalSucceeds(m: MemberService, token: Option<Credential>, now: int)
    requires m.provider.GetAdminUserInfoFromToken(token, now).Success?
    requires var id := m.provider.GetAdminUserInfoFromToken(token, now).value;
             id.Some? && m.provider.store.up && SessionStore.Live(m.provider.store.entries, id.value, now).Some?
             && m.users.up && id.value in m.users.rows
    requires AccountRepository.WellFormed(m.users.rows)
    ensures var id := m.provider.GetAdminUserInfoFromToken(token, now).value.value;
            m.RenewalOf(token, now) ==
              Success(Some(JwtToken(None, Some(Compact(Jwt(TOKEN_TYPE, HS256,
                                      Claims(SubjectClaim(Some(id)), None, Some(now + ACCESS_TOKEN_EXPIRE_COUNT)),
                                      m.provider.key))), None, None, 0)))
  {
    var id := m.provider.GetAdminUserInfoFromToken(token, now).value.value;
    assert m.users.rows[id].userId == Some(id);
  }

  /** A live session for a user the table does not hold leads to generateAccessToken(null), which
      refuses the absent token data */
  lemma RenewalOfUnknownUser(m: MemberService, token: Option<Credential>, now: int)
    requires m.provider.GetAdminUserInfoFromToken(token, now).Success?
    requires var id := m.provider.GetAdminUserInfoFromToken(token, now).value;
             id.Some? && m.provider.store.up && SessionStore.Live(m.provider.store.entries, id.value, now).Some?
             && m.users.up && id.value !in m.users.rows
    ensures m.RenewalOf(token, now) == Failure(IllegalArgument(TOKEN_DATA_REQUIRED))
  {
  }

  /** A renewal names the stored user as subject, carries no roles, and so is refused by the gate */
  lemma RenewedTokenShape(m: MemberService, f: JwtAuthenticationFilter.JwtAuthenticationFilter,
                          token: Option<Credential>, uri: string, now: int, later: int)
    requires f.provider == m.provider
    requires AccountRepository.WellFormed(m.users.rows)
    requires m.RenewalOf(token, now).Success? && m.RenewalOf(token, now).value.Some?
    requires !JwtAuthenticationFilter.Bypassed(uri)
    requires now <= later < now + ACCESS_TOKEN_EXPIRE_COUNT
    ensures var renewed := m.RenewalOf(token, now).value.value;
            var id := m.provider.GetAdminUserInfoFromToken(token, now).value.value;
            renewed.accessToken.Some? && renewed.grantType.None? && renewed.refreshToken.None?
            && renewed.accessToken.value.Compact?
            && renewed.accessToken.value.jwt.claims.sub == SubjectClaim(Some(id))
            && renewed.accessToken.value.jwt.claims.roles.None?
            && f.Classify(Request(uri, Some([Cookie(JwtTokenUtil.ACCESS_TOKEN_COOKIE, renewed.accessToken,
                                                    Some("/"), true, NO_MAX_AGE)])), later)
               == JwtAuthenticationFilter.Rejected(InvalidToken(NO_ROLES))
  {
    var id := m.provider.GetAdminUserInfoFromToken(token, now).value.value;
    var row := AccountRepository.Lookup(m.users.rows, Some(id)).value;
    var data := RefreshToken(AccountRepository.Credentials(row).userId, 0, None, None);
    assert row.userId == Some(id);
    assert m.RenewalOf(token, now).value.value.accessToken ==
             Some(m.provider.GenerateAccessToken(Some(data), now).value);
    JwtAuthenticationFilter.RenewedTokenRefused(f, uri, data, now, later, JwtAuthenticationFilter.Completes);
  }

  /** A login authenticated through the user lookup carries an empty roles claim, and the gate
      then knows the user as ROLE_DEFAULT */
  lemma LoginIdentityIsDefault(m: MemberService, f: JwtAuthenticationFilter.JwtAuthenticationFilter,
                               user: UserRow, uri: string, now: int, later: int)
    requires f.provider == m.provider
    requires AccountRepository.WellFormed(m.users.rows)
    requires EmailUtils.IsValidEmail(user.userId)
    requires Authenticate(m.users.rows, m.users.up, user.userId, user.userPassword).Success?
    requires !JwtAuthenticationFilter.Bypassed(uri)
    requires now <= later < now + ACCESS_TOKEN_EXPIRE_COUNT
    ensures var a := Authenticate(m.users.rows, m.users.up, user.userId, user.userPassword).value;
            a.name == user.userId.value
            && m.provider.AccessTokenFor(a, now).claims.roles == Some("")
            && f.Classify(Request(uri, Some([Cookie(JwtTokenUtil.ACCESS_TOKEN_COOKIE,
                                                    Some(Compact(m.provider.AccessTokenFor(a, now))),
                                                    Some("/"), true, NO_MAX_AGE)])), later)
               == JwtAuthenticationFilter.Authenticated(Authentication(user.userId.value, [ROLE_DEFAULT], ""))
  {
    var a := Authenticate(m.users.rows, m.users.up, user.userId, user.userPassword).value;
    assert NullName(user.userId) == user.userId.value;
    assert a.name == user.userId.value;
    ValidEmailNotBlank(user.userId.value);
    assert Text.Join(a.authorities, ',') == "";
    JwtAuthenticationFilter.LoginTokenAdmitted(f, uri, a, now, later);
  }
}
