/** The /auth/ endpoints: code request, code check, sign-up, login and logout */
module AuthController {

  import opened Wrappers
  import opened Errors
  import opened Jwt
  import opened Http
  import EmailUtils
  import SessionStore
  import JwtTokenUtil
  import opened Enums
  import opened UserEntity
  import PasswordEncoder
  import AccountRepository
  import EmailAuthRepository
  import opened JwtTokenProvider
  import MemberService
  import AuthService
  import GlobalExceptionHandler
  import JwtAuthenticationFilter
  import SecurityConfig

  /** The path every cookie of the controller is set on */
  const ROOT_PATH: string := "/"

  /** The logout endpoint's path; it is neither bypassed by the gate nor open to everyone */
  const LOGOUT_PATH: string := "/auth/logout"

  /** The cookie login sets: the access token of the reply, HttpOnly, on "/", for the session */
  function LoginCookie(accessToken: Option<Credential>): (c: Cookie)
    ensures c.name == JwtTokenUtil.ACCESS_TOKEN_COOKIE && c.value == accessToken
    ensures c.path == Some(ROOT_PATH) && c.httpOnly && c.maxAge == NO_MAX_AGE
  {
    Cookie(JwtTokenUtil.ACCESS_TOKEN_COOKIE, accessToken, Some(ROOT_PATH), true, NO_MAX_AGE)
  }

  /** The cookie logout sets: no value, HttpOnly, on "/", expiring at once */
  function ClearingCookie(): (c: Cookie)
    ensures c.name == JwtTokenUtil.ACCESS_TOKEN_COOKIE && c.value.None?
    ensures c.path == Some(ROOT_PATH) && c.httpOnly && c.maxAge == 0
  {
    Cookie(JwtTokenUtil.ACCESS_TOKEN_COOKIE, None, Some(ROOT_PATH), true, 0)
  }

  /** Whether logout acts on the extracted token: it is neither null nor the empty string */
  predicate Present(token: Option<Credential>) {
    token.Some? && token.value != Raw("")
  }

  /** A request carrying the login cookie hands the filter back the token login issued */
  lemma LoginCookieRoundTrip(accessToken: Option<Credential>, later: seq<Cookie>)
    ensures JwtTokenUtil.ExtractTokenFromCookies(Some([LoginCookie(accessToken)] + later)) == accessToken
  {
    assert [LoginCookie(accessToken)][0].name == JwtTokenUtil.ACCESS_TOKEN_COOKIE;
    JwtTokenUtil.LaterCookiesIgnored([LoginCookie(accessToken)], later);
  }

  /** Once the browser holds the clearing cookie in its place, no token is sent */
  lemma ClearingCookieCarriesNoToken(later: seq<Cookie>)
    ensures JwtTokenUtil.ExtractTokenFromCookies(Some([ClearingCookie()] + later)) == None
  {
    assert [ClearingCookie()][0].name == JwtTokenUtil.ACCESS_TOKEN_COOKIE;
    JwtTokenUtil.LaterCookiesIgnored([ClearingCookie()], later);
  }

  /** The controller's logout called on its own, without the gate in front of it, with a
      correctly signed but expired token: the expiry escapes the service and the catch-all
      handler answers 500. Over HTTP the gate refuses this token first
      (`ExpiredLogoutRefusedByGate`). */
  lemma ExpiredLogoutIsServerError(a: AuthService.AuthService, t: Jwt, now: int)
    requires t.alg == HS256 && t.signedWith == a.provider.key && IsExpiredAt(t.claims.exp, now)
    ensures Present(Some(Compact(t)))
    ensures a.LogoutOutcome(Some(Compact(t)), now) == Failure(ExpiredJwt(EXPIRED_MSG))
    ensures GlobalExceptionHandler.Handle(ExpiredJwt(EXPIRED_MSG)) ==
              Response(INTERNAL_SERVER_ERROR, Some(GlobalExceptionHandler.UNEXPECTED_PREFIX + EXPIRED_MSG))
  {
  }

  /** Over HTTP a request to logout meets the gate first: it is either refused there with 401,
      or it is served with a present token whose logout succeeds, so the controller answers 204 */
  lemma LogoutThroughGate(f: JwtAuthenticationFilter.JwtAuthenticationFilter, a: AuthService.AuthService,
                          request: Request, now: int)
    requires f.provider == a.provider && request.uri == LOGOUT_PATH
    ensures SecurityConfig.Route(f, request, now).Refused? ==>
              SecurityConfig.Route(f, request, now) == SecurityConfig.Refused(UNAUTHORIZED)
    ensures SecurityConfig.Route(f, request, now).Served? ==>
              var t := JwtTokenUtil.ExtractTokenFromCookies(request.cookies);
              Present(t) && a.LogoutOutcome(t, now) == Success(())
  {
    assert !SecurityConfig.PermitAll(request.uri) by {
      assert LOGOUT_PATH[9] != "/auth/login"[9];
      assert |LOGOUT_PATH| != |"/"|;
    }
    SecurityConfig.ProtectedNeedsToken(f, request, now);
  }

  /** An expired token on the logout request gets the gate's JSON 401 and never reaches the
      controller */
  lemma ExpiredLogoutRefusedByGate(f: JwtAuthenticationFilter.JwtAuthenticationFilter, t: Jwt, now: int,
                                   chain: JwtAuthenticationFilter.Downstream)
    requires t.alg == HS256 && t.signedWith == f.provider.key && IsExpiredAt(t.claims.exp, now)
    ensures var request := Request(LOGOUT_PATH, Some([Cookie(JwtTokenUtil.ACCESS_TOKEN_COOKIE, Some(Compact(t)),
                                                             None, true, NO_MAX_AGE)]));
            JwtAuthenticationFilter.ReplyOf(f.Classify(request, now), chain) == JwtAuthenticationFilter.ExpiredJson
            && SecurityConfig.Route(f, request, now) == SecurityConfig.Refused(UNAUTHORIZED)
  {
    assert !JwtAuthenticationFilter.Bypassed(LOGOUT_PATH) by {
      assert LOGOUT_PATH[6] == 'l';
    }
    JwtAuthenticationFilter.RefusalsByKind(f, LOGOUT_PATH, t, now, chain);
  }

  /** Login sets the cookie even for an error reply, whose access token is null: the cookie then
      carries no token */
  lemma ErrorReplyCookieEmpty(message: string)
    ensures LoginCookie(MemberService.ErrorJwtToken(message).accessToken).value.None?
    ensures JwtTokenUtil.ExtractTokenFromCookies(Some([LoginCookie(MemberService.ErrorJwtToken(message).accessToken)])) == None
  {
    LoginCookieRoundTrip(MemberService.ErrorJwtToken(message).accessToken, []);
    assert [LoginCookie(MemberService.ErrorJwtToken(message).accessToken)] + [] ==
           [LoginCookie(MemberService.ErrorJwtToken(message).accessToken)];
  }

  class AuthController {
    const members: MemberService.MemberService
    const auth: AuthService.AuthService

    constructor (members: MemberService.MemberService, auth: AuthService.AuthService)
      ensures this.members == members && this.auth == auth
    {
      this.members := members;
      this.auth := auth;
    }

    /** POST /auth/send-auth-code: the service's answer, unchanged */
    method SendAuthCode(user: UserRow, draws: seq<int>) returns (r: Response<bool>)
      requires |draws| == EmailUtils.CODE_LENGTH
      requires forall i :: 0 <= i < |draws| ==> 0 <= draws[i] < EmailUtils.RANDOM_BOUND
      modifies auth.codes`rows, auth.mailer`outbox
      ensures var email := user.userId;
              !EmailUtils.IsValidEmail(email) ==>
                r == Response(BAD_REQUEST, Some(false)) && auth.codes.rows == old(auth.codes.rows)
                && auth.mailer.outbox == old(auth.mailer.outbox)
      ensures var email := user.userId;
              EmailUtils.IsValidEmail(email) && !auth.users.up ==>
                r == Response(INTERNAL_SERVER_ERROR, None) && auth.codes.rows == old(auth.codes.rows)
                && auth.mailer.outbox == old(auth.mailer.outbox)
      ensures var email := user.userId;
              EmailUtils.IsValidEmail(email) && auth.users.up && AccountRepository.Lookup(auth.users.rows, email).Some? ==>
                r == Response(OK, Some(false)) && auth.codes.rows == old(auth.codes.rows)
                && auth.mailer.outbox == old(auth.mailer.outbox)
      ensures var email := user.userId;
              var code := EmailUtils.CodeOf(draws);
              var saved := EmailAuthRepository.SaveResult(old(auth.codes.rows), auth.codes.up, email, Some(code), N);
              EmailUtils.IsValidEmail(email) && auth.users.up && AccountRepository.Lookup(auth.users.rows, email).None? ==>
                (saved.Failure? ==>
                   r == Response(INTERNAL_SERVER_ERROR, None) && auth.codes.rows == old(auth.codes.rows)
                   && auth.mailer.outbox == old(auth.mailer.outbox))
                && (saved.Success? ==> auth.codes.rows == saved.value)
                && (saved.Success? && auth.mailer.up ==>
                      r == Response(OK, Some(true)) && auth.mailer.outbox == old(auth.mailer.outbox) + [(email.value, code)])
                && (saved.Success? && !auth.mailer.up ==>
                      r == Response(INTERNAL_SERVER_ERROR, None) && auth.mailer.outbox == old(auth.mailer.outbox))
    {
      r := auth.CheckEmailDuplication(user, draws);
    }

    /** POST /auth/verify: the service's answer, unchanged */
    method Verify(code: Option<string>, email: Option<string>) returns (r: Result<Response<bool>, Exception>)
      ensures var found := EmailAuthRepository.FindResult(auth.codes.rows, auth.codes.up, code, email);
              (found.Failure? ==> r == Failure(found.error))
              && (found.Success? ==> r == Success(Response(OK, Some(found.value.Some?))))
    {
      r := auth.VerifyAuthenticationCode(code, email);
    }

    /** POST /auth/signup: the service's answer, unchanged */
    method SignUp(user: UserRow, now: int) returns (r: Response<bool>)
      modifies auth.users`rows
      ensures var encoded := PasswordEncoder.Encode(user.userPassword);
              encoded.Failure? || !auth.users.up ==>
                r == Response(INTERNAL_SERVER_ERROR, Some(false)) && auth.users.rows == old(auth.users.rows)
      ensures var encoded := PasswordEncoder.Encode(user.userPassword);
              encoded.Success? && auth.users.up ==>
                var inserted := AccountRepository.InsertResult(old(auth.users.rows),
                                                               AuthService.SignedUpRow(user, encoded.value, now));
                (inserted.Success? ==> r == Response(OK, Some(true)) && auth.users.rows == inserted.value)
                && (inserted.Failure? ==> r == Response(BAD_REQUEST, Some(false)) && auth.users.rows == old(auth.users.rows))
    {
      r := auth.SignUp(user, now);
    }

    /** POST /auth/login: the sign-in reply, with its access token also set as a cookie; a failure
        of the service escapes before the cookie is added */
    method Login(user: UserRow, response: ServletResponse, now: int) returns (r: Result<Response<JwtToken>, Exception>)
      modifies members.provider.store`entries, response`cookies
      ensures var s := old(members.SignInResult(user, now));
              (s.Failure? ==> r == Failure(s.error) && response.cookies == old(response.cookies))
              && (s.Success? ==> r == Success(Response(OK, Some(s.value)))
                                 && response.cookies == old(response.cookies) + [LoginCookie(s.value.accessToken)])
      ensures !old(members.SignInWrites(user)) ==> members.provider.store.entries == old(members.provider.store.entries)
      ensures old(members.SignInWrites(user)) ==>
                members.provider.store.entries ==
                  SessionStore.Written(old(members.provider.store.entries),
                                       old(MemberService.Authenticate(members.users.rows, members.users.up,
                                                                      user.userId, user.userPassword)).value.name,
                                       Compact(members.provider.RefreshTokenFor(now)), REFRESH_TOKEN_EXPIRE_COUNT, now)
    {
      var token := members.SignInAndGenerateJwtToken(user, now);
      if token.Failure? {
        return Failure(token.error);
      }
      response.AddCookie(LoginCookie(token.value.accessToken));
      r := Success(Response(OK, Some(token.value)));
    }

    /** POST /auth/logout: with a token present, the cookie is cleared first and then the
        service logs out, whose failure escapes; the reply is otherwise 204 */
    method Logout(request: Request, response: ServletResponse, now: int) returns (r: Result<Response<()>, Exception>)
      modifies auth.provider.store`entries, response`cookies
      ensures var t := JwtTokenUtil.ExtractTokenFromCookies(request.cookies);
              !Present(t) ==>
                r == Success(Response(NO_CONTENT, None)) && response.cookies == old(response.cookies)
                && auth.provider.store.entries == old(auth.provider.store.entries)
      ensures var t := JwtTokenUtil.ExtractTokenFromCookies(request.cookies);
              Present(t) ==>
                response.cookies == old(response.cookies) + [ClearingCookie()]
                && auth.provider.store.entries == old(auth.LoggedOut(t, now))
                && (auth.LogoutOutcome(t, now).Failure? ==> r == Failure(auth.LogoutOutcome(t, now).error))
                && (auth.LogoutOutcome(t, now).Success? ==> r == Success(Response(NO_CONTENT, None)))
    {
      var accessToken := JwtTokenUtil.ExtractTokenFromCookies(request.cookies);
      if Present(accessToken) {
        response.AddCookie(ClearingCookie());
        var out := auth.Logout(accessToken, now);
        if out.Failure? {
          return Failure(out.error);
        }
      }
      r := Success(Response(NO_CONTENT, None));
    }
  }
}
