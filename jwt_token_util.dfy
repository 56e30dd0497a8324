/** JwtTokenUtil: finding the access-token cookie of a request */
module JwtTokenUtil {

  import opened Wrappers
  import opened Jwt
  import opened Http

  /** The name of the cookie that carries the access token */
  const ACCESS_TOKEN_COOKIE: string := "accessToken"

  /** The index of the first cookie with exactly this name, or |cookies| when there is none */
  function FirstIndex(cookies: seq<Cookie>, name: string): (k: nat)
    ensures k <= |cookies|
    ensures k < |cookies| ==> cookies[k].name == name
    ensures forall j :: 0 <= j < k ==> cookies[j].name != name
  {
    if |cookies| == 0 then 0
    else if cookies[0].name == name then 0
    else 1 + FirstIndex(cookies[1..], name)
  }

  /** extractTokenFromCookies: the value of the first "accessToken" cookie, or null */
  function ExtractTokenFromCookies(cookies: Option<seq<Cookie>>): (r: Option<Credential>)
    ensures cookies.None? ==> r.None?
    ensures cookies.Some? && FirstIndex(cookies.value, ACCESS_TOKEN_COOKIE) < |cookies.value| ==>
              r == cookies.value[FirstIndex(cookies.value, ACCESS_TOKEN_COOKIE)].value
  {
    if cookies.None? then None
    else
      var k := FirstIndex(cookies.value, ACCESS_TOKEN_COOKIE);
      if k < |cookies.value| then cookies.value[k].value else None
  }

  /** With no cookie of that exact name the result is null */
  lemma NoAccessCookie(cookies: seq<Cookie>)
    requires forall j :: 0 <= j < |cookies| ==> cookies[j].name != ACCESS_TOKEN_COOKIE
    ensures ExtractTokenFromCookies(Some(cookies)) == None
  {
  }

  /** The result is the value of the first cookie so named: cookies after it are ignored */
  lemma {:induction false} LaterCookiesIgnored(first: seq<Cookie>, later: seq<Cookie>)
    requires exists j :: 0 <= j < |first| && first[j].name == ACCESS_TOKEN_COOKIE
    ensures ExtractTokenFromCookies(Some(first + later)) == ExtractTokenFromCookies(Some(first))
  {
    FirstIndexPrefix(first, later, ACCESS_TOKEN_COOKIE);
  }

  lemma {:induction false} FirstIndexPrefix(first: seq<Cookie>, later: seq<Cookie>, name: string)
    requires exists j :: 0 <= j < |first| && first[j].name == name
    ensures FirstIndex(first + later, name) == FirstIndex(first, name) < |first|
  {
    var j :| 0 <= j < |first| && first[j].name == name;
    var k := FirstIndex(first, name);
    var k' := FirstIndex(first + later, name);
    assert k <= j;
    assert (first + later)[k] == first[k];
    assert k' <= k;
  }

  /** The match on the name is case-sensitive */
  lemma CaseSensitive(v: Credential)
    ensures ExtractTokenFromCookies(Some([Cookie("AccessToken", Some(v), None, false, NO_MAX_AGE)])) == None
  {
    assert "AccessToken" != ACCESS_TOKEN_COOKIE by { assert "AccessToken"[0] != ACCESS_TOKEN_COOKIE[0]; }
  }
}
