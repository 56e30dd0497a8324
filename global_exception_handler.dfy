/** The application-wide table from exception kinds to error responses */
module GlobalExceptionHandler {

  import opened Wrappers
  import opened Errors
  import opened Http

  const METHOD_PREFIX: string := "Method not allowed: "
  const ACCESS_PREFIX: string := "Access denied: "
  const DATABASE_PREFIX: string := "Database access error occurred: "
  const UNEXPECTED_PREFIX: string := "An unexpected error occurred: "
  const CUSTOM_PREFIX: string := "Custom error: "

  /** Whether one of the specific handlers applies; the catch-all takes every other exception */
  predicate HasSpecificHandler(e: Exception) {
    e.MethodNotSupported? || e.AccessDenied? || e.IsDataAccessException() || e.Custom?
  }

  /** The status and the message prefix of the handler that applies: the most specific one */
  function Handle(e: Exception): (r: Response<string>)
    ensures r.body.Some?
    ensures e.MethodNotSupported? ==> r == Response(METHOD_NOT_ALLOWED, Some(METHOD_PREFIX + e.msg))
    ensures e.AccessDenied? ==> r == Response(FORBIDDEN, Some(ACCESS_PREFIX + e.msg))
    ensures e.IsDataAccessException() ==> r == Response(INTERNAL_SERVER_ERROR, Some(DATABASE_PREFIX + e.msg))
    ensures e.Custom? ==> r == Response(BAD_REQUEST, Some(CUSTOM_PREFIX + e.msg))
    ensures !HasSpecificHandler(e) ==> r == Response(INTERNAL_SERVER_ERROR, Some(UNEXPECTED_PREFIX + e.msg))
  {
    match e
    case MethodNotSupported(m) => Response(METHOD_NOT_ALLOWED, Some(METHOD_PREFIX + m))
    case AccessDenied(m) => Response(FORBIDDEN, Some(ACCESS_PREFIX + m))
    case DataAccess(m) => Response(INTERNAL_SERVER_ERROR, Some(DATABASE_PREFIX + m))
    case DataIntegrityViolation(m) => Response(INTERNAL_SERVER_ERROR, Some(DATABASE_PREFIX + m))
    case Custom(m) => Response(BAD_REQUEST, Some(CUSTOM_PREFIX + m))
    case _ => Response(INTERNAL_SERVER_ERROR, Some(UNEXPECTED_PREFIX + e.msg))
  }

  /** Every reply ends with the exception's message, and is a client error exactly for the
      unsupported method, the refused access and the application's own exception */
  lemma ReplyCarriesMessage(e: Exception)
    ensures var body := Handle(e).body.value;
            |body| >= |e.msg| && body[|body| - |e.msg|..] == e.msg
    ensures Handle(e).status < INTERNAL_SERVER_ERROR <==> e.MethodNotSupported? || e.AccessDenied? || e.Custom?
    ensures Handle(e).status in {BAD_REQUEST, FORBIDDEN, METHOD_NOT_ALLOWED, INTERNAL_SERVER_ERROR}
  {
  }

  /** A specific handler wins over the catch-all: the catch-all's prefix appears exactly for
      the exceptions that no specific handler takes */
  lemma SpecificWins(e: Exception)
    ensures var b := Handle(e).body.value;
            (|b| >= |UNEXPECTED_PREFIX| && b[..|UNEXPECTED_PREFIX|] == UNEXPECTED_PREFIX) <==> !HasSpecificHandler(e)
  {
    var b := Handle(e).body.value;
    if HasSpecificHandler(e) {
      assert |b| >= 2 && b[1] != UNEXPECTED_PREFIX[1];
    } else {
      assert b == UNEXPECTED_PREFIX + e.msg;
    }
  }
}
