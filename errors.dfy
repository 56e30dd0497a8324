/** The exceptions the core throws or catches, as one datatype */
module Errors {

  import Wrappers

  /** Each constructor stands for one Java exception class; `msg` is its getMessage() */
  datatype Exception =
    | IllegalArgument(msg: string)               // java.lang.IllegalArgumentException
    | InvalidToken(msg: string)                  // InvalidTokenException (an AuthenticationException)
    | CustomExpiredJwt(msg: string)              // CustomExpiredJwtException
    | ExpiredJwt(msg: string)                    // io.jsonwebtoken.ExpiredJwtException
    | MalformedJwt(msg: string)                  // io.jsonwebtoken.MalformedJwtException
    | UnsupportedJwt(msg: string)                // io.jsonwebtoken.UnsupportedJwtException
    | SignatureFailure(msg: string)              // io.jsonwebtoken.security.SignatureException
    | UsernameNotFound(msg: string)              // UsernameNotFoundException
    | BadCredentials(msg: string)                // BadCredentialsException
    | InternalAuthenticationService(msg: string) // InternalAuthenticationServiceException
    | DataAccess(msg: string)                    // DataAccessException (store unreachable)
    | DataIntegrityViolation(msg: string)        // DataIntegrityViolationException (a DataAccessException)
    | EntityNotFound(msg: string)                // jakarta.persistence.EntityNotFoundException
    | Custom(msg: string)                        // CustomException (mail failure)
    | AccessDenied(msg: string)                  // AccessDeniedException
    | MethodNotSupported(msg: string)            // HttpRequestMethodNotSupportedException
  {
    /** Subclasses of Spring Security's AuthenticationException */
    predicate IsAuthenticationException() {
      InvalidToken? || UsernameNotFound? || BadCredentials? || InternalAuthenticationService?
    }

    /** Subclasses of Spring's DataAccessException */
    predicate IsDataAccessException() {
      DataAccess? || DataIntegrityViolation?
    }
  }

  /** Message of the DataAccessException a store raises when it cannot be reached */
  const StoreUnavailable: string := "store unavailable"

  /** Java's string concatenation with a possibly-null operand */
  function NullText(s: Wrappers.Option<string>): string {
    if s.Some? then s.value else "null"
  }
}
