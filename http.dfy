/** The servlet request and response as the core sees them */
module Http {

  import opened Wrappers
  import opened Jwt

  const OK: int := 200
  const NO_CONTENT: int := 204
  const BAD_REQUEST: int := 400
  const UNAUTHORIZED: int := 401
  const FORBIDDEN: int := 403
  const NOT_FOUND: int := 404
  const METHOD_NOT_ALLOWED: int := 405
  const INTERNAL_SERVER_ERROR: int := 500

  /** The Max-Age a servlet cookie has when none is set: a session cookie */
  const NO_MAX_AGE: int := -1

  /** jakarta.servlet.http.Cookie; a null value is None */
  datatype Cookie = Cookie(name: string, value: Option<Credential>, path: Option<string>,
                           httpOnly: bool, maxAge: int)

  /** ResponseEntity: a status and a body that may be null */
  datatype Response<T> = Response(status: int, body: Option<T>)

  /** The request URI and the cookie array, which is null when the request has no cookies */
  datatype Request = Request(uri: string, cookies: Option<seq<Cookie>>)

  /** The mutable servlet response: status, headers written, body written, sendError, cookies added */
  class ServletResponse {
    var status: int
    var contentType: Option<string>
    var characterEncoding: Option<string>
    var body: string
    var error: Option<(int, Option<string>)>
    var cookies: seq<Cookie>

    constructor()
      ensures status == OK && contentType == None && characterEncoding == None
      ensures body == "" && error == None && cookies == []
    {
      status := OK;
      contentType := None;
      characterEncoding := None;
      body := "";
      error := None;
      cookies := [];
    }

    method SetStatus(sc: int)
      modifies this`status
      ensures status == sc
    {
      status := sc;
    }

    method SetContentType(t: string)
      modifies this`contentType
      ensures contentType == Some(t)
    {
      contentType := Some(t);
    }

    method SetCharacterEncoding(e: string)
      modifies this`characterEncoding
      ensures characterEncoding == Some(e)
    {
      characterEncoding := Some(e);
    }

    /** getWriter().write: appends to the body */
    method Write(text: string)
      modifies this`body
      ensures body == old(body) + text
    {
      body := body + text;
    }

    /** sendError(sc) or sendError(sc, msg): the status and the error page's message */
    method SendError(sc: int, msg: Option<string>)
      modifies this`status, this`error
      ensures status == sc && error == Some((sc, msg))
    {
      status := sc;
      error := Some((sc, msg));
    }

    /** HttpServletResponse.addCookie */
    method AddCookie(c: Cookie)
      modifies this`cookies
      ensures cookies == old(cookies) + [c]
    {
      cookies := cookies + [c];
    }
  }
}
