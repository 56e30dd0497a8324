/** JwtAuthenticationFilter: the per-request gate that reads the access-token cookie, validates
    it and records the principal before handing the request on */
module JwtAuthenticationFilter {

  import opened Wrappers
  import opened Errors
  import opened Jwt
  import opened Http
  import JwtTokenUtil
  import Text
  import opened JwtTokenProvider

  /** The request URIs that go downstream without their cookie being looked at */
  predicate Bypassed(uri: string) {
    uri == "/auth/access-token" || uri == "/auth/signup" || uri == "/auth/send-auth-code"
    || uri == "/auth/verify"
  }

  const EXPIRED_CONTENT_TYPE: string := "application/json"
  const EXPIRED_ENCODING: string := "UTF-8"
  const EXPIRED_BODY: string := "{\"error\": \"Token expired.\"}"

  /** What the rest of the chain does once the filter hands the request on */
  datatype Downstream = Completes | Throws(e: Exception)

  /** What the filter makes of a request before it hands it on, if it does */
  datatype Step =
    | Bypass                              // a listed URI: no cookie read, nothing stored
    | Anonymous                           // no access-token cookie: nothing stored
    | Authenticated(a: Authentication)    // a valid token: its principal is stored
    | Rejected(e: Exception)              // validation or principal construction threw

  /** The filter's own contribution to the response */
  datatype Reply =
    | PassOn                              // the filter writes nothing
    | ExpiredJson                         // 401 with a JSON body
    | ErrorPage(msg: string)              // sendError(401, message)

  /** The `catch` clauses: an expiry gets the JSON reply, anything else the error page */
  function Handle(e: Exception): (r: Reply)
    ensures r.ExpiredJson? <==> e.CustomExpiredJwt?
    ensures !r.PassOn?
    ensures r.ErrorPage? ==> r.msg == e.msg
  {
    if e.CustomExpiredJwt? then ExpiredJson else ErrorPage(e.msg)
  }

  /** The reply of the whole doFilter: the chain call sits inside the same `try`, so an
      exception from downstream is caught by the same two clauses */
  function ReplyOf(step: Step, chain: Downstream): (r: Reply)
    ensures step.Rejected? ==> r == Handle(step.e)
    ensures !step.Rejected? ==> (r.PassOn? <==> chain.Completes?)
    ensures !step.Rejected? && chain.Throws? ==> r == Handle(chain.e)
  {
    if step.Rejected? then Handle(step.e)
    else if chain.Throws? then Handle(chain.e)
    else PassOn
  }

  /** The security context of the current request */
  class SecurityContext {
    var authentication: Option<Authentication>

    constructor()
      ensures authentication == None
    {
      authentication := None;
    }

    method SetAuthentication(a: Authentication)
      modifies this`authentication
      ensures authentication == Some(a)
    {
      authentication := Some(a);
    }
  }

  class JwtAuthenticationFilter {
    const provider: JwtTokenProvider

    constructor(provider: JwtTokenProvider)
      ensures this.provider == provider
    {
      this.provider := provider;
    }

    /** The gate's decision for a request at `now` */
    function Classify(request: Request, now: int): (s: Step)
      ensures Bypassed(request.uri) <==> s.Bypass?
      ensures !Bypassed(request.uri) ==>
                (s.Anonymous? <==> JwtTokenUtil.ExtractTokenFromCookies(request.cookies).None?)
      ensures s.Authenticated? ==>
                var token := JwtTokenUtil.ExtractTokenFromCookies(request.cookies);
                provider.ValidateToken(token, now) == Success(true)
                && provider.AuthenticationOf(token, now) == Success(s.a)
      ensures s.Rejected? ==>
                var token := JwtTokenUtil.ExtractTokenFromCookies(request.cookies);
                token.Some? &&
                (provider.ValidateToken(token, now) == Failure(s.e)
                 || (provider.ValidateToken(token, now).Success?
                     && provider.AuthenticationOf(token, now) == Failure(s.e)))
    {
      if Bypassed(request.uri) then Bypass
      else
        var token := JwtTokenUtil.ExtractTokenFromCookies(request.cookies);
        if token.None? then Anonymous
        else
          var valid := provider.ValidateToken(token, now);
          if valid.Failure? then Rejected(valid.error)
          else
            var authentication := provider.AuthenticationOf(token, now);
            if authentication.Failure? then Rejected(authentication.error)
            else Authenticated(authentication.value)
    }

    /** extractJwtFromRequest: the value of the first cookie named "accessToken", or null */
    method ExtractJwtFromRequest(request: Request) returns (token: Option<Credential>)
      ensures token == JwtTokenUtil.ExtractTokenFromCookies(request.cookies)
    {
      if request.cookies.Some? {
        var cookies := request.cookies.value;
        var i := 0;
        while i < |cookies|
          invariant 0 <= i <= |cookies|
          invariant forall j :: 0 <= j < i ==> cookies[j].name != JwtTokenUtil.ACCESS_TOKEN_COOKIE
        {
          if cookies[i].name == JwtTokenUtil.ACCESS_TOKEN_COOKIE {
            assert JwtTokenUtil.FirstIndex(cookies, JwtTokenUtil.ACCESS_TOKEN_COOKIE) == i;
            return cookies[i].value;
          }
          i := i + 1;
        }
        assert JwtTokenUtil.FirstIndex(cookies, JwtTokenUtil.ACCESS_TOKEN_COOKIE) == |cookies|;
      }
      return None;
    }

    /** doFilter: stores the principal of a valid token, hands the request on unless the token
        was refused, and writes the refusal into the response. Returns whether the chain ran. */
    method DoFilter(request: Request, response: ServletResponse, context: SecurityContext,
                    chain: Downstream, now: int) returns (chainCalled: bool)
      modifies response, context
      ensures chainCalled <==> !Classify(request, now).Rejected?
      ensures context.authentication ==
                if Classify(request, now).Authenticated? then Some(Classify(request, now).a)
                else old(context.authentication)
      ensures response.cookies == old(response.cookies)
      ensures ReplyOf(Classify(request, now), chain).PassOn? ==>
                response.status == old(response.status) && response.error == old(response.error)
                && response.body == old(response.body)
                && response.contentType == old(response.contentType)
                && response.characterEncoding == old(response.characterEncoding)
      ensures ReplyOf(Classify(request, now), chain).ExpiredJson? ==>
                response.status == UNAUTHORIZED && response.error == old(response.error)
                && response.contentType == Some(EXPIRED_CONTENT_TYPE)
                && response.characterEncoding == Some(EXPIRED_ENCODING)
                && response.body == old(response.body) + EXPIRED_BODY
      ensures ReplyOf(Classify(request, now), chain).ErrorPage? ==>
                response.status == UNAUTHORIZED
                && response.error == Some((UNAUTHORIZED, Some(ReplyOf(Classify(request, now), chain).msg)))
                && response.body == old(response.body)
                && response.contentType == old(response.contentType)
                && response.characterEncoding == old(response.characterEncoding)
    {
      var failure: Option<Exception> := None;
      chainCalled := false;
      if Bypassed(request.uri) {
        chainCalled := true;
        if chain.Throws? {
          failure := Some(chain.e);
        }
      } else {
        var token := ExtractJwtFromRequest(request);
        if token.Some? {
          var valid := provider.ValidateToken(token, now);
          if valid.Failure? {
            failure := Some(valid.error);
          } else {
            var authentication := provider.GetAuthentication(token, now);
            if authentication.Failure? {
              failure := Some(authentication.error);
            } else {
              context.SetAuthentication(authentication.value);
            }
          }
        }
        if failure.None? {
          chainCalled := true;
          if chain.Throws? {
            failure := Some(chain.e);
          }
        }
      }
      if failure.Some? {
        if failure.value.CustomExpiredJwt? {
          response.SetStatus(UNAUTHORIZED);
          response.SetContentType(EXPIRED_CONTENT_TYPE);
          response.SetCharacterEncoding(EXPIRED_ENCODING);
          response.Write(EXPIRED_BODY);
        } else {
          response.SendError(UNAUTHORIZED, Some(failure.value.msg));
        }
      }
    }
  }

  /** A bypassed request is handed on untouched, whatever cookie it carries */
  lemma BypassIgnoresCookie(f: JwtAuthenticationFilter, uri: string, cookies: Option<seq<Cookie>>, now: int)
    requires Bypassed(uri)
    ensures f.Classify(Request(uri, cookies), now) == Bypass
    ensures ReplyOf(f.Classify(Request(uri, cookies), now), Completes) == PassOn
  {
  }

  /** /auth/login is not bypassed: a stale cookie sent along with a login request is checked */
  lemma LoginIsNotBypassed()
    ensures !Bypassed("/auth/login")
  {
    assert "/auth/login"[6] != "/auth/signup"[6];
    assert "/auth/login"[6] != "/auth/verify"[6];
    assert "/auth/login"[6] != "/auth/send-auth-code"[6];
    assert "/auth/login"[6] != "/auth/access-token"[6];
  }

  /** The login token of a user with no authorities authenticates at the gate as ROLE_DEFAULT */
  lemma LoginTokenAdmitted(f: JwtAuthenticationFilter, uri: string, authentication: Authentication,
                           issued: int, now: int)
    requires !Bypassed(uri)
    requires !Text.IsBlank(authentication.name) && authentication.authorities == []
    requires issued <= now < issued + ACCESS_TOKEN_EXPIRE_COUNT
    ensures f.Classify(Request(uri, Some([Cookie(JwtTokenUtil.ACCESS_TOKEN_COOKIE,
                                                 Some(Compact(f.provider.AccessTokenFor(authentication, issued))),
                                                 Some("/"), true, NO_MAX_AGE)])), now)
              == Authenticated(Authentication(authentication.name, [ROLE_DEFAULT], ""))
  {
    NoAuthoritiesMeansDefaultRole(f.provider, authentication, issued, now);
  }

  /** A renewed token passes validation and is then refused at the gate with the error page */
  lemma RenewedTokenRefused(f: JwtAuthenticationFilter, uri: string, data: RefreshToken,
                            issued: int, now: int, chain: Downstream)
    requires !Bypassed(uri)
    requires issued <= now < issued + ACCESS_TOKEN_EXPIRE_COUNT
    ensures var token := f.provider.GenerateAccessToken(Some(data), issued).value;
            var step := f.Classify(Request(uri, Some([Cookie(JwtTokenUtil.ACCESS_TOKEN_COOKIE, Some(token),
                                                             Some("/"), true, NO_MAX_AGE)])), now);
            step == Rejected(InvalidToken(NO_ROLES)) && ReplyOf(step, chain) == ErrorPage(NO_ROLES)
  {
    RenewedTokenHasNoPrincipal(f.provider, data, issued, now);
  }

  /** An expired token gets the JSON reply; an empty cookie value and a foreign signature get
      the error page: none of them reaches the chain */
  lemma RefusalsByKind(f: JwtAuthenticationFilter, uri: string, t: Jwt, now: int, chain: Downstream)
    requires !Bypassed(uri)
    ensures t.alg == HS256 && t.signedWith == f.provider.key && IsExpiredAt(t.claims.exp, now) ==>
              ReplyOf(f.Classify(Request(uri, Some([Cookie(JwtTokenUtil.ACCESS_TOKEN_COOKIE, Some(Compact(t)),
                                                           None, true, NO_MAX_AGE)])), now), chain) == ExpiredJson
    ensures t.alg == HS256 && t.signedWith != f.provider.key ==>
              ReplyOf(f.Classify(Request(uri, Some([Cookie(JwtTokenUtil.ACCESS_TOKEN_COOKIE, Some(Compact(t)),
                                                           None, true, NO_MAX_AGE)])), now), chain).ErrorPage?
    ensures ReplyOf(f.Classify(Request(uri, Some([Cookie(JwtTokenUtil.ACCESS_TOKEN_COOKIE, Some(Raw("")),
                                                         None, true, NO_MAX_AGE)])), now), chain)
              == ErrorPage(EMPTY_CLAIMS)
  {
  }
}
