/** SecurityConfig: which paths need a principal, and what a refusal looks like, composed with
    the gate into the answer a request gets */
module SecurityConfig {

  import opened Wrappers
  import opened Errors
  import opened Jwt
  import opened Http
  import JwtTokenUtil
  import Text
  import opened JwtTokenProvider
  import opened JwtAuthenticationFilter

  /** The paths every caller may reach */
  predicate PermitAll(uri: string) {
    uri == "/auth/login" || uri == "/"
  }

  /** Where a request ends up */
  datatype Answer =
    | Served(principal: Option<Authentication>)   // reaches the controller
    | Refused(status: int)                         // answered by the gate or by a handler

  /** The entry point answers an unauthenticated request to a protected path */
  function EntryPoint(): (r: Answer)
    ensures r == Refused(UNAUTHORIZED)
  {
    Refused(UNAUTHORIZED)
  }

  /** An AccessDeniedException: an anonymous caller is sent to the entry point, an
      authenticated one to the access-denied handler */
  function OnAccessDenied(principal: Option<Authentication>): (r: Answer)
    ensures principal.None? ==> r == Refused(UNAUTHORIZED)
    ensures principal.Some? ==> r == Refused(FORBIDDEN)
  {
    if principal.None? then EntryPoint() else Refused(FORBIDDEN)
  }

  /** The path rule: permitted paths are open, every other path needs a principal. Sessions
      are stateless, so the only principal is the one the gate stored for this request. */
  function Authorize(uri: string, principal: Option<Authentication>): (r: Answer)
    ensures r.Served? <==> PermitAll(uri) || principal.Some?
    ensures r.Served? ==> r.principal == principal
    ensures r.Refused? ==> r.status == UNAUTHORIZED
  {
    if PermitAll(uri) || principal.Some? then Served(principal) else EntryPoint()
  }

  /** The JWT filter runs before the rest of the chain: a refused token is answered by the gate,
      otherwise the path rule sees the principal the gate stored, if any */
  function Route(f: JwtAuthenticationFilter, request: Request, now: int): (r: Answer)
    ensures f.Classify(request, now).Rejected? ==> r == Refused(UNAUTHORIZED)
    ensures r.Served? <==> !f.Classify(request, now).Rejected?
                           && (PermitAll(request.uri) || f.Classify(request, now).Authenticated?)
    ensures r.Served? && f.Classify(request, now).Authenticated? ==>
              r.principal == Some(f.Classify(request, now).a)
  {
    var step := f.Classify(request, now);
    if step.Rejected? then Refused(UNAUTHORIZED)
    else Authorize(request.uri, if step.Authenticated? then Some(step.a) else None)
  }

  /** The paths the gate lets through unread still need a principal, which the gate never stored
      for them: they are refused with 401 whatever the request carries */
  lemma BypassedPathsRefused(f: JwtAuthenticationFilter, request: Request, now: int)
    requires Bypassed(request.uri)
    ensures Route(f, request, now) == Refused(UNAUTHORIZED)
  {
    assert !PermitAll(request.uri) by {
      var u := request.uri;
      assert u == "/auth/access-token" || u == "/auth/signup" || u == "/auth/send-auth-code"
             || u == "/auth/verify";
      assert |u| > 1 && u[..6] == "/auth/";
      assert u != "/";
      assert u[6] != "/auth/login"[6];
    }
  }

  /** The login path is reached without any cookie */
  lemma LoginOpen(f: JwtAuthenticationFilter, now: int)
    ensures Route(f, Request("/auth/login", None), now) == Served(None)
  {
    LoginIsNotBypassed();
  }

  /** A protected path is served only to a request whose token the gate accepted, and then with
      that token's principal */
  lemma ProtectedNeedsToken(f: JwtAuthenticationFilter, request: Request, now: int)
    requires !PermitAll(request.uri)
    ensures Route(f, request, now).Served? ==>
              var token := JwtTokenUtil.ExtractTokenFromCookies(request.cookies);
              token.Some? && f.provider.ValidateToken(token, now) == Success(true)
              && Route(f, request, now).principal == Some(f.Classify(request, now).a)
              && f.provider.AuthenticationOf(token, now) == Success(f.Classify(request, now).a)
  {
  }
}
