# Authentication core of the lumen-editor backend, in Dafny

This project models how the lumen-editor Spring Boot backend handles sign-in and accounts, and proves properties of that model.

- **Tokens.** The token service issues a JWT access token. It keeps one refresh token per user in an expiring session store (Redis in the original). It sorts a token's parse outcome into "expired" or "invalid", and turns the comma-joined `roles` claim back into authorities.
- **The request gate.** The gate is the JWT filter followed by the path rule of the security configuration.
  - It lets four URIs through unread.
  - It stores the principal of a valid token.
  - An expired token gets a JSON 401; any other refusal gets a 401 error page.
- **The services.** Sign-in, access-token renewal and logout. E-mail code registration:
  - request a code;
  - check the code;
  - sign up.
- **Account maintenance.** Read, patch of non-null fields, password change and withdrawal. The user table is modelled with its query semantics.
- **Small helpers.** The e-mail recogniser, the six-digit code builder, the cookie lookup, the camelCase to snake_case column naming, the entity defaults and lifecycle hooks, and the exception-to-status table.

## How the model is built

- **One Dafny module per source file.** Helper modules:
  - `Wrappers`, with `Option` and `Result`;
  - `Errors`, with one variant per exception class;
  - `Text`, with ASCII character classes, Java's `split` and `toLowerCase`;
  - `Jwt` and `Http`;
  - `SessionStore`, the expiring key/value store.
- **Null values.** A Java value that may be null is an `Option`. An exception is the `Failure` of a `Result`.
- **Stateful parts are classes.** The store, the tables, the mailer, the entities, the servlet response and the security context are classes whose methods change their fields.
  - Each such method is proved against a pure function of the old state, for example `SessionStore.Written`, `AccountRepository.PasswordUpdated` or `EmailAuthRepository.SaveResult`.
  - The cross-operation properties are lemmas about those functions.
- **Tokens.** A token is an abstract record: type header, algorithm, claims (`sub`, `roles`, `exp`) and the key it was signed with. A credential that is not a well-formed JWT is its raw text. Parsing (`Jwt.Parse`) checks the text, then the signature of a signed token, then the expiry. Only a token that passes these is refused for being unsigned, so an unsigned token past its `exp` is reported as expired.
- **Inputs from outside.**
  - The clock (`now`, `today`) and the six random draws of `createCode` are parameters.
  - Whether the database, the session store and the mail server can be reached is a flag on each. When one cannot be reached, every call into it raises a data-access failure, or the mail failure, and changes nothing.
- **Library behaviour that changes outcomes is written out:**
  - A derived query with a null argument finds nothing, since every stored id is non-null. The explicit JPQL queries with `= :userId` match nothing for null.
  - The authentication provider:
    - turns "user not found" and a wrong or null password into `BadCredentials`;
    - turns any other load failure into `InternalAuthenticationService`;
    - looks up a null name as `NONE_PROVIDED`.
  - Spring's `User` refuses a null or empty name and a null password. `SimpleGrantedAuthority` refuses a role without text.
  - Hibernate:
    - runs `@PrePersist` before the not-null and unique checks;
    - runs `@PreUpdate` only when the loaded entity was changed;
    - runs no hook for bulk JPQL updates.
  - The session store refuses a null key.
  - The password encoder is a deterministic stand-in that is injective, so an encoding matches exactly the raw password it came from.
  - A null recipient or text is refused by the message helper's null check with an illegal-argument exception, which the mailer does not convert. Only a messaging failure while building the message becomes the application's custom exception. Sending raises the framework's mail exception, which the mailer does not catch; the model folds it into the same custom failure (see "Left out").
- **Message texts.** The texts of library exceptions are stand-in constants. No property depends on their wording. The texts written in the source, such as the JSON body of the expiry reply and the handler prefixes, are the source's own.

## Where the code and the intended behaviour differ (the model follows the code)

- **Renewal of an access token** (`MemberServiceImpl.getAccessToken`):
  - It reads the subject through the strict parse, so an expired access token raises instead of being renewed (`MemberService.ExpiredTokenNotRenewed`).
  - It never writes or extends the session entry.
  - The renewed token has no `roles` claim, so the gate refuses it with a 401 error page (`MemberService.RenewedTokenShape`, `JwtAuthenticationFilter.RenewedTokenRefused`).
  - The call `generateAccessToken(user)` does not type-check against `generateAccessToken(Optional<RefreshToken>)`. The model reads it as a token-data record whose username is the stored user's id.
- **Login grants no authorities.** It authenticates through `CustomUserDetailsService`, which grants none. The `roles` claim is therefore `""` and the gate identity is `[ROLE_DEFAULT]` (`MemberService.LoginIdentityIsDefault`).
- **Unread paths still need a principal.** The gate lets `/auth/signup`, `/auth/send-auth-code`, `/auth/verify` and `/auth/access-token` through unread, but the path rule still requires a principal for them. An anonymous request there ends at the entry point with 401 (`SecurityConfig.BypassedPathsRefused`).
- **A second code request** for the same e-mail breaks the unique `authEmail` column and answers 500. The first code stays.
- **Code verification** never marks a record as verified, so every stored record stays pending (`EmailAuthRepository.AllPending` is preserved).
- **Logout** is not a path the gate lets through unread, so over HTTP the gate reads the cookie first.
  - An expired token gets the gate's JSON 401, and a forged or malformed one its 401 error page, before the controller runs (`AuthController.ExpiredLogoutRefusedByGate`, `JwtAuthenticationFilter.RefusalsByKind`).
  - A request the gate lets through carries a token the service accepts, so the answer is 204; every other request is refused with 401 (`AuthController.LogoutThroughGate`).
  - Only when the controller is called without the gate in front does an expired, forged or malformed token reach the service. The parse failure is none of the two kinds the service swallows, so it reaches the catch-all handler: 500 (`AuthController.ExpiredLogoutIsServerError`, `AuthService.ParseFailuresEscapeLogout`). An empty cookie value is not acted on, and the answer is 204.
- **Details changes stamp the withdrawal date.** Any real change to a user's details runs the `@PreUpdate` hook, which stamps `withdrawalDate`. The user then looks withdrawn (`AccountService.DetailsChangeStampsWithdrawal`).
- **The reply flag of a details update** says whether a field was given, not whether the row changed (`AccountService.FlagIsNotChange`).
- **Withdrawal** sets `userStatus` N and `isDeleted` 1. It changes nothing that login looks at, and the account-status flags are always true, so a withdrawn user can still log in (`AccountService.WithdrawnUserStillAuthenticates`, `UserEntity.WithdrawnUserStillEnabled`).
- **Mid-refactor type mismatches.**
  - `CustomUserDetailsService` imports the web DTO `User`, while the repository returns the entity `User`. The model uses the entity.
  - `AccountRepository.updateUserPasswordById` annotates its parameters with lettuce's `@Param`, and `deleteUser` has none. The model assumes the parameters are bound by name.

## Model

| member | source | states |
|---|---|---|
| Text.JavaSplitJoin | src/main/java/com/lumeneditor/www/security/JwtTokenProvider.java:196-200 | splitting a ","-joined list of non-empty, comma-free pieces on "," (Java split, trailing empties dropped) gives the pieces back in order |
| Text.SplitAllJoin | src/main/java/com/lumeneditor/www/security/JwtTokenProvider.java:197 | splitting a joined list on its separator, keeping empties, gives the list back |
| Text.DropTrailingEmpty | src/main/java/com/lumeneditor/www/security/JwtTokenProvider.java:197 | the result is the longest prefix whose last piece is non-empty; only empty pieces are dropped |
| Text.ToLower | src/main/java/com/lumeneditor/www/config/CustomNamingStrategy.java:24 | same length; each character is lowered and no upper-case letter remains |
| Text.Replace | src/main/java/com/lumeneditor/www/config/CustomNamingStrategy.java:16 | same length; exactly the occurrences of one character are replaced |
| Jwt.Parse | src/main/java/com/lumeneditor/www/security/JwtTokenProvider.java:157-162 | empty iff null or blank text; malformed iff other raw text; bad signature iff HS256 signed with another key; expired iff unsigned or signed with the key, and past exp; unsupported iff unsigned and not past exp; ok iff HS256, signed with the key and not past exp; ok and expired carry the token's claims |
| Jwt.ParseClaimsJws | src/main/java/com/lumeneditor/www/security/JwtTokenProvider.java:157-162 | each parse outcome corresponds one-to-one to the exception the parser throws: expiry, signature, malformed, unsupported, empty |
| JwtTokenProvider.KeyFor | src/main/java/com/lumeneditor/www/security/JwtTokenProvider.java:42-58 | fails with IllegalArgument exactly for a null or empty secret; otherwise the key is made of that secret |
| JwtTokenProvider.JwtTokenProvider.Create | src/main/java/com/lumeneditor/www/security/JwtTokenProvider.java:42-58 | construction fails exactly when the secret is null or empty; otherwise the provider holds the key of that secret and the given store |
| JwtTokenProvider.AuthoritiesOf | src/main/java/com/lumeneditor/www/security/JwtTokenProvider.java:188-202 | "" gives exactly [ROLE_DEFAULT]; otherwise the Java split on ",", refused if a piece has no text |
| JwtTokenProvider.AuthenticationFromClaims | src/main/java/com/lumeneditor/www/security/JwtTokenProvider.java:178-207 | missing roles claim gives InvalidToken; success iff roles decode; principal is the subject, credentials "" |
| JwtTokenProvider.JwtTokenProvider.GenerateToken | src/main/java/com/lumeneditor/www/security/JwtTokenProvider.java:70-106 | reply holds only "Bearer" and the access token (subject, joined roles, now+30 min); the session entry under the name is replaced by a subject-free refresh token with TTL 8 h; store failure changes nothing |
| JwtTokenProvider.JwtTokenProvider.GenerateAccessToken | src/main/java/com/lumeneditor/www/security/JwtTokenProvider.java:117-132 | fails iff the token data is absent; otherwise a compact token with no roles claim |
| JwtTokenProvider.JwtTokenProvider.GetAdminUserInfoFromToken | src/main/java/com/lumeneditor/www/security/JwtTokenProvider.java:140-147 | succeeds iff the strict parse is ok, with the subject; otherwise the parse's exception, expiry included |
| JwtTokenProvider.JwtTokenProvider.GetExpirationDateFromToken | src/main/java/com/lumeneditor/www/security/JwtTokenProvider.java:164-168 | succeeds iff the strict parse is ok, with the expiry |
| JwtTokenProvider.JwtTokenProvider.ValidateToken | src/main/java/com/lumeneditor/www/security/JwtTokenProvider.java:216-246 | never false; true iff the parse is ok; expired gives CustomExpiredJwt; malformed, unsupported and empty give InvalidToken; a bad signature propagates |
| JwtTokenProvider.JwtTokenProvider.ParseClaims | src/main/java/com/lumeneditor/www/security/JwtTokenProvider.java:256-273 | claims for an ok or an expired token; the strict failure otherwise |
| JwtTokenProvider.JwtTokenProvider.GetAuthentication | src/main/java/com/lumeneditor/www/security/JwtTokenProvider.java:178-207 | the loop that builds the authority list gives what AuthenticationOf specifies |
| JwtTokenProvider.IssueThenAuthenticate | src/main/java/com/lumeneditor/www/security/JwtTokenProvider.java:71-83 | before expiry a login token validates and authenticates to the same name and roles in order |
| JwtTokenProvider.NoAuthoritiesMeansDefaultRole | src/main/java/com/lumeneditor/www/security/JwtTokenProvider.java:191-193 | a login with no authorities authenticates as [ROLE_DEFAULT] |
| JwtTokenProvider.RenewedTokenHasNoPrincipal | src/main/java/com/lumeneditor/www/security/JwtTokenProvider.java:183-185 | a renewed token validates but no principal can be built from it |
| JwtTokenProvider.ExpiredIsNotInvalid | src/main/java/com/lumeneditor/www/security/JwtTokenProvider.java:232-235 | past expiry validation says expired, parseClaims still gives the claims, the strict readers fail |
| JwtTokenProvider.ForeignKeyRefused | src/main/java/com/lumeneditor/www/security/JwtTokenProvider.java:216-231 | a token signed with another key is refused, not as expired, and yields no principal |
| JwtTokenProvider.EmptyPieceRefused | src/main/java/com/lumeneditor/www/security/JwtTokenProvider.java:196-200 | "a,,b" names an authority without text, which is refused |
| SessionStore.Live | src/main/java/com/lumeneditor/www/security/JwtTokenProvider.java:95-100 | a read sees an entry iff it exists and its TTL has not run out, with its value |
| SessionStore.Precheck | src/main/java/com/lumeneditor/www/domain/auth/AuthServiceImpl.java:127 | no failure iff the store is reachable and the key non-null |
| SessionStore.GetResult | src/main/java/com/lumeneditor/www/domain/auth/MemberServiceImpl.java:85 | succeeds iff reachable and the key non-null, with what a read sees |
| SessionStore.Written | src/main/java/com/lumeneditor/www/security/JwtTokenProvider.java:95-100 | the key gets the value with deadline now+TTL; every other entry unchanged |
| SessionStore.WrittenThenRead | src/main/java/com/lumeneditor/www/security/JwtTokenProvider.java:95-100 | a written value is read back until its TTL runs out and not after |
| SessionStore.WriteSupersedes | src/main/java/com/lumeneditor/www/security/JwtTokenProvider.java:95-100 | a second write under a key replaces the first |
| SessionStore.Store.Get | src/main/java/com/lumeneditor/www/domain/auth/MemberServiceImpl.java:85 | the result GetResult gives; nothing changes |
| SessionStore.Store.Set | src/main/java/com/lumeneditor/www/security/JwtTokenProvider.java:95-100 | on success the entries are Written(old); on failure unchanged |
| SessionStore.Store.Delete | src/main/java/com/lumeneditor/www/domain/auth/AuthServiceImpl.java:129 | on success the key is gone and the result says whether a live entry was there; on failure unchanged |
| JwtTokenUtil.FirstIndex | src/main/java/com/lumeneditor/www/comm/JwtTokenUtil.java:25-28 | the index of the first cookie with the name, no earlier one has it |
| JwtTokenUtil.ExtractTokenFromCookies | src/main/java/com/lumeneditor/www/comm/JwtTokenUtil.java:22-32 | null for no cookie array; the value of the first "accessToken" cookie |
| JwtTokenUtil.NoAccessCookie | src/main/java/com/lumeneditor/www/comm/JwtTokenUtil.java:31 | no cookie of that name gives null |
| JwtTokenUtil.LaterCookiesIgnored | src/main/java/com/lumeneditor/www/comm/JwtTokenUtil.java:25-28 | cookies after the first match do not change the result |
| JwtTokenUtil.FirstIndexPrefix | src/main/java/com/lumeneditor/www/comm/JwtTokenUtil.java:25-28 | a match in a prefix is found at the same index in the whole array |
| JwtTokenUtil.CaseSensitive | src/main/java/com/lumeneditor/www/comm/JwtTokenUtil.java:26 | "AccessToken" is not "accessToken" |
| JwtAuthenticationFilter.Handle | src/main/java/com/lumeneditor/www/security/JwtAuthenticationFilter.java:61-69 | the JSON reply iff the exception is the custom expiry; otherwise the error page with the exception's message |
| JwtAuthenticationFilter.ReplyOf | src/main/java/com/lumeneditor/www/security/JwtAuthenticationFilter.java:37-69 | a refusal is handled; otherwise a downstream exception is caught by the same handlers |
| JwtAuthenticationFilter.SecurityContext.SetAuthentication | src/main/java/com/lumeneditor/www/security/JwtAuthenticationFilter.java:56 | the context holds the given authentication |
| JwtAuthenticationFilter.JwtAuthenticationFilter.Classify | src/main/java/com/lumeneditor/www/security/JwtAuthenticationFilter.java:40-57 | bypass iff a listed URI; anonymous iff no cookie; authenticated only with a validated token and its principal; rejected with the validation or principal failure |
| JwtAuthenticationFilter.JwtAuthenticationFilter.ExtractJwtFromRequest | src/main/java/com/lumeneditor/www/security/JwtAuthenticationFilter.java:81-92 | the loop agrees with JwtTokenUtil.ExtractTokenFromCookies on every request |
| JwtAuthenticationFilter.JwtAuthenticationFilter.DoFilter | src/main/java/com/lumeneditor/www/security/JwtAuthenticationFilter.java:34-70 | chain called iff not rejected; the principal stored only when authenticated; expired: 401, application/json, UTF-8, the JSON body; otherwise sendError(401, message); pass-on writes nothing |
| JwtAuthenticationFilter.BypassIgnoresCookie | src/main/java/com/lumeneditor/www/security/JwtAuthenticationFilter.java:42-49 | a listed URI is handed on whatever cookie it carries |
| JwtAuthenticationFilter.LoginIsNotBypassed | src/main/java/com/lumeneditor/www/security/JwtAuthenticationFilter.java:42-45 | /auth/login is not in the list |
| JwtAuthenticationFilter.LoginTokenAdmitted | src/main/java/com/lumeneditor/www/security/JwtAuthenticationFilter.java:52-57 | a fresh login token authenticates as [ROLE_DEFAULT] |
| JwtAuthenticationFilter.RenewedTokenRefused | src/main/java/com/lumeneditor/www/security/JwtAuthenticationFilter.java:53-55 | a renewed token validates and is then refused with the error page |
| JwtAuthenticationFilter.RefusalsByKind | src/main/java/com/lumeneditor/www/security/JwtAuthenticationFilter.java:61-68 | expired gives the JSON reply; a foreign signature and an empty cookie value the error page |
| SecurityConfig.EntryPoint | src/main/java/com/lumeneditor/www/config/SecurityConfig.java:72-74 | 401 |
| SecurityConfig.OnAccessDenied | src/main/java/com/lumeneditor/www/config/SecurityConfig.java:76 | anonymous goes to the entry point, 401; authenticated gets 403 |
| SecurityConfig.Authorize | src/main/java/com/lumeneditor/www/config/SecurityConfig.java:63-69 | served iff / or /auth/login or a principal; refusal is 401 |
| SecurityConfig.Route | src/main/java/com/lumeneditor/www/config/SecurityConfig.java:79 | a gate refusal is 401; otherwise the path rule with the principal the gate stored |
| SecurityConfig.BypassedPathsRefused | src/main/java/com/lumeneditor/www/config/SecurityConfig.java:69 | bypassed paths are refused with 401 |
| SecurityConfig.LoginOpen | src/main/java/com/lumeneditor/www/config/SecurityConfig.java:65 | /auth/login is served without a cookie |
| SecurityConfig.ProtectedNeedsToken | src/main/java/com/lumeneditor/www/config/SecurityConfig.java:69 | a protected path is served only with a principal from an accepted token |
| EmailUtils.IsValidEmail | src/main/java/com/lumeneditor/www/comm/EmailUtils.java:14-20 | false for null; true iff the whole string matches ^[A-Za-z0-9+_.-]+@[A-Za-z0-9.-]+$ |
| EmailUtils.RunMeaning | src/main/java/com/lumeneditor/www/comm/EmailUtils.java:10 | the recogniser's state is the meaning of the text read |
| EmailUtils.MeaningStep | src/main/java/com/lumeneditor/www/comm/EmailUtils.java:10 | one more character moves the meaning as the recogniser moves |
| EmailUtils.ValidEmailShape | src/main/java/com/lumeneditor/www/comm/EmailUtils.java:10 | a valid address is non-empty, has exactly one "@" and no whitespace |
| EmailUtils.Examples | src/main/java/com/lumeneditor/www/comm/EmailUtils.java:16-19 | sample addresses accepted and refused |
| EmailUtils.DigitChar | src/main/java/com/lumeneditor/www/comm/EmailUtils.java:28 | the decimal digit character of a draw |
| EmailUtils.CodeOf | src/main/java/com/lumeneditor/www/comm/EmailUtils.java:25-30 | one digit per draw, in draw order |
| EmailUtils.CreateCode | src/main/java/com/lumeneditor/www/comm/EmailUtils.java:24-31 | six digit characters, the draws in order, leading zeros allowed |
| CustomNamingStrategy.MarkedLength | src/main/java/com/lumeneditor/www/config/CustomNamingStrategy.java:17-22 | the scanned buffer is longer than the input by exactly the number of lower-upper-lower positions |
| CustomNamingStrategy.MarkedChars | src/main/java/com/lumeneditor/www/config/CustomNamingStrategy.java:17-22 | the scan only inserts underscores: every character is one of the input or "_" |
| CustomNamingStrategy.AddUnderscores | src/main/java/com/lumeneditor/www/config/CustomNamingStrategy.java:15-25 | the in-place insertion loop computes Snake(name) |
| CustomNamingStrategy.ToPhysicalColumnName | src/main/java/com/lumeneditor/www/config/CustomNamingStrategy.java:10-13 | the snake-cased text with the quoted flag kept |
| CustomNamingStrategy.SnakeShape | src/main/java/com/lumeneditor/www/config/CustomNamingStrategy.java:16-24 | no ".", no upper-case letter, length is input length plus insertions |
| CustomNamingStrategy.MarkedFrom | src/main/java/com/lumeneditor/www/config/CustomNamingStrategy.java:17-22 | no break in a stretch means the stretch is copied unchanged |
| CustomNamingStrategy.MarkedNoUpper | src/main/java/com/lumeneditor/www/config/CustomNamingStrategy.java:17-22 | text with no upper-case letter gets no underscore |
| CustomNamingStrategy.SnakeIdempotent | src/main/java/com/lumeneditor/www/config/CustomNamingStrategy.java:15-25 | applying the conversion twice is applying it once |
| CustomNamingStrategy.TwoWords | src/main/java/com/lumeneditor/www/config/CustomNamingStrategy.java:15-25 | a lower-case word followed by a capitalised lower-case word becomes the two words joined by "_", all lower case |
| CustomNamingStrategy.PhoneNumberExample | src/main/java/com/lumeneditor/www/config/CustomNamingStrategy.java:17-24 | "phoneNumber" becomes "phone_number" |
| CustomNamingStrategy.UserIdExample | src/main/java/com/lumeneditor/www/config/CustomNamingStrategy.java:17-24 | "userID" gets no underscore |
| CustomNamingStrategy.DottedExample | src/main/java/com/lumeneditor/www/config/CustomNamingStrategy.java:16 | "user.name" becomes "user_name" |
| Enums.DefaultN | src/main/java/com/lumeneditor/www/domain/auth/entity/EmailAuth.java:33-38 | null becomes N; a set status is kept |
| Enums.DefaultNIdempotent | src/main/java/com/lumeneditor/www/domain/auth/entity/EmailAuth.java:35 | defaulting twice is defaulting once |
| UserEntity.RoleAuthorities | src/main/java/com/lumeneditor/www/domain/auth/entity/User.java:105-112 | no authority for a null or "" role; exactly [role] for a role with text; a blank one is refused |
| UserEntity.CreatedIgnoresInput | src/main/java/com/lumeneditor/www/domain/auth/entity/User.java:85-97 | onCreate overwrites its columns whatever was set; the role is always "User" |
| UserEntity.UpdateStampsWithdrawal | src/main/java/com/lumeneditor/www/domain/auth/entity/User.java:99-103 | onUpdate sets withdrawalDate and passwordRecovery to now and nothing else |
| UserEntity.User.constructor | src/main/java/com/lumeneditor/www/domain/auth/entity/User.java:28-32 | only id, password and role set |
| UserEntity.User.OnCreate | src/main/java/com/lumeneditor/www/domain/auth/entity/User.java:85-97 | the row becomes Created(old row, now) |
| UserEntity.User.OnUpdate | src/main/java/com/lumeneditor/www/domain/auth/entity/User.java:99-103 | the row becomes Updated(old row, now) |
| UserEntity.WithdrawnUserStillEnabled | src/main/java/com/lumeneditor/www/domain/auth/entity/User.java:115-133 | the four account-status flags are true even for a withdrawn user |
| WebDtoUser.WithCredentialsHasNoAuthorities | src/main/java/com/lumeneditor/www/web/dto/User.java:27-30 | the two-argument constructor leaves the role null, so no authorities; name and password are the given ones |
| WebDtoUser.AuthoritiesAreRole | src/main/java/com/lumeneditor/www/web/dto/User.java:79-86 | the authorities are empty or exactly [role], never anything else |
| EmailAuthEntity.EmailAuth.constructor | src/main/java/com/lumeneditor/www/domain/auth/AuthServiceImpl.java:56-59 | the builder sets e-mail and code and leaves the status null |
| EmailAuthEntity.EmailAuth.PrePersist | src/main/java/com/lumeneditor/www/domain/auth/entity/EmailAuth.java:33-38 | status defaults to N; no other field changes |
| WebDtoEmailAuth.EmailAuth.constructor | src/main/java/com/lumeneditor/www/web/dto/EmailAuth.java:24-30 | the three fields hold the given values |
| WebDtoEmailAuth.EmailAuth.PrePersist | src/main/java/com/lumeneditor/www/web/dto/EmailAuth.java:32-37 | status defaults to N; no other field changes |
| ProjectsEntity.Projects.constructor | src/main/java/com/lumeneditor/www/domain/myproject/entity/Projects.java:26-39 | the four fields hold the given values |
| ProjectsEntity.Projects.OnCreate | src/main/java/com/lumeneditor/www/domain/myproject/entity/Projects.java:41-46 | disclosure status defaults to N; the required fields are untouched |
| PasswordEncoder.Encode | src/main/java/com/lumeneditor/www/config/SecurityConfig.java:43-45 | fails exactly for null; an encoding carries the hash mark |
| PasswordEncoder.EncodeInjective | src/main/java/com/lumeneditor/www/config/SecurityConfig.java:43-45 | different passwords never encode alike |
| PasswordEncoder.MatchesOwnEncoding | src/main/java/com/lumeneditor/www/config/SecurityConfig.java:43-45 | a password matches its own encoding and no other password's; null matches nothing |
| EmailService.Mailer.SendAuthenticationCodeEmail | src/main/java/com/lumeneditor/www/domain/auth/email/EmailServiceImpl.java:24-43 | null recipient or text refused; unreachable server gives the custom failure; success iff both set and reachable, and then exactly that mail is sent |
| EmailAuthRepository.Matching | src/main/java/com/lumeneditor/www/domain/auth/email/EmailAuthRepository.java:25 | exactly the rows with that code and that e-mail |
| EmailAuthRepository.MatchingUnique | src/main/java/com/lumeneditor/www/domain/auth/entity/EmailAuth.java:24-25 | with unique e-mails a query naming an e-mail has at most one answer |
| EmailAuthRepository.SaveResult | src/main/java/com/lumeneditor/www/domain/auth/entity/EmailAuth.java:24-28 | unreachable, null code, taken e-mail each refused; success iff none, appending the record |
| EmailAuthRepository.SaveKeepsInvariants | src/main/java/com/lumeneditor/www/domain/auth/entity/EmailAuth.java:24-31 | a save keeps the e-mails unique and, storing N, every record pending |
| EmailAuthRepository.FindResult | src/main/java/com/lumeneditor/www/domain/auth/email/EmailAuthRepository.java:25 | the one matching stored record, none when no record matches, a failure when several match |
| EmailAuthRepository.FindNamedEmail | src/main/java/com/lumeneditor/www/domain/auth/email/EmailAuthRepository.java:25 | with unique e-mails the query never fails on a reachable table |
| EmailAuthRepository.FindIffStored | src/main/java/com/lumeneditor/www/domain/auth/email/EmailAuthRepository.java:25 | a record is found iff one holds that code for that e-mail |
| EmailAuthRepository.SavedCodeFound | src/main/java/com/lumeneditor/www/domain/auth/AuthServiceImpl.java:87-96 | the code saved for a new e-mail is found with that e-mail; another code is not |
| EmailAuthRepository.CodeTable.Save | src/main/java/com/lumeneditor/www/domain/auth/AuthServiceImpl.java:62 | the hook runs, then the rows become SaveResult; a failure changes no row |
| EmailAuthRepository.CodeTable.FindByAuthCodeAndAuthEmail | src/main/java/com/lumeneditor/www/domain/auth/email/EmailAuthRepository.java:25 | the result FindResult gives |
| AccountRepository.Lookup | src/main/java/com/lumeneditor/www/domain/main/account/AccountRepository.java:25 | the row with that id, or none; null finds none |
| AccountRepository.PasswordUpdated | src/main/java/com/lumeneditor/www/domain/main/account/AccountRepository.java:40-42 | only the password and passwordRecovery of the matching row change |
| AccountRepository.WithdrawalApplied | src/main/java/com/lumeneditor/www/domain/main/account/AccountRepository.java:59-61 | only status, isDeleted and withdrawalDate of the matching row change |
| AccountRepository.InsertResult | src/main/java/com/lumeneditor/www/domain/auth/entity/User.java:38-51 | a missing required column or a taken id is refused; otherwise the row is added |
| AccountRepository.UpdatesKeepWellFormed | src/main/java/com/lumeneditor/www/domain/main/account/AccountRepository.java:40-61 | the updates and insert keep the table keyed by id and complete |
| AccountRepository.UpdatesCommute | src/main/java/com/lumeneditor/www/domain/main/account/AccountRepository.java:40-61 | a password update and a withdrawal commute |
| AccountRepository.UserTable.FindByUserId | src/main/java/com/lumeneditor/www/domain/main/account/AccountRepository.java:25 | the row Lookup gives, or the data-access failure |
| AccountRepository.UserTable.FindCredentialsByUserId | src/main/java/com/lumeneditor/www/domain/auth/AuthRepository.java:39-40 | only id, password and role of the row with that id |
| AccountRepository.UserTable.CountByUserId | src/main/java/com/lumeneditor/www/domain/auth/AuthRepository.java:26 | 1 when a row has the id, else 0 |
| AccountRepository.UserTable.UpdateUserPasswordById | src/main/java/com/lumeneditor/www/domain/main/account/AccountRepository.java:40-42 | count 0 or 1; rows become PasswordUpdated; null id or no match changes nothing |
| AccountRepository.UserTable.DeleteUser | src/main/java/com/lumeneditor/www/domain/main/account/AccountRepository.java:59-61 | count 0 or 1; rows become WithdrawalApplied; null id or no match changes nothing |
| AccountRepository.UserTable.Insert | src/main/java/com/lumeneditor/www/domain/auth/AuthServiceImpl.java:109 | the create hook runs, then the rows follow InsertResult |
| AccountRepository.UserTable.Update | src/main/java/com/lumeneditor/www/domain/main/account/AccountServiceImpl.java:66 | the row is written back, through the update hook only when changed |
| CustomUserDetailsService.CreateUserDetails | src/main/java/com/lumeneditor/www/domain/auth/CustomUserDetailsService.java:40-47 | the stored id and password with no authority; a null or empty name or a null password is refused |
| CustomUserDetailsService.LoadUserByUsername | src/main/java/com/lumeneditor/www/domain/auth/CustomUserDetailsService.java:24-36 | an unknown id is UsernameNotFound with the id in the message; a data failure is passed on; otherwise the stored id and password, no authorities |
| CustomUserDetailsService.KnownUserLoads | src/main/java/com/lumeneditor/www/domain/auth/CustomUserDetailsService.java:24-47 | a known non-empty id always loads on a well-formed table |
| CustomUserDetailsService.RoleIgnored | src/main/java/com/lumeneditor/www/domain/auth/CustomUserDetailsService.java:41 | the stored role does not affect what is loaded |
| GlobalExceptionHandler.Handle | src/main/java/com/lumeneditor/www/aspect/GlobalExceptionHandler.java:17-56 | 405, 403, 500 (database), 400 (custom) or 500 (catch-all), each with its prefix and the message |
| GlobalExceptionHandler.ReplyCarriesMessage | src/main/java/com/lumeneditor/www/aspect/GlobalExceptionHandler.java:17-56 | every body ends with the message; client errors exactly for method, access and custom |
| GlobalExceptionHandler.SpecificWins | src/main/java/com/lumeneditor/www/aspect/GlobalExceptionHandler.java:42-47 | the catch-all prefix appears iff no specific handler applies |
| MemberService.ErrorJwtToken | src/main/java/com/lumeneditor/www/domain/auth/MemberServiceImpl.java:65-76 | only the error message is set |
| MemberService.Authenticate | src/main/java/com/lumeneditor/www/domain/auth/MemberServiceImpl.java:59-62 | every failure is an authentication failure; success iff the user loads and the password matches, with the loaded name and no authorities |
| MemberService.ValidEmailNotBlank | src/main/java/com/lumeneditor/www/domain/auth/MemberServiceImpl.java:41-45 | a valid address is never blank |
| MemberService.MemberService.SignInResult | src/main/java/com/lumeneditor/www/domain/auth/MemberServiceImpl.java:37-56 | invalid e-mail gives the e-mail error reply; failed authentication the credentials error reply; a valid e-mail that authenticates gives exactly generateToken's reply (grant type, access token for the user) when the store is reachable, and the data-access failure when it is not |
| MemberService.MemberService.SignInAndGenerateJwtToken | src/main/java/com/lumeneditor/www/domain/auth/MemberServiceImpl.java:37-49 | the reply SignInResult gives; the session is written only after successful authentication |
| MemberService.MemberService.RenewalOf | src/main/java/com/lumeneditor/www/domain/auth/MemberServiceImpl.java:82-98 | a failing subject read is raised as is; a renewed token is only given for a live session of a stored user, and is then an HS256 access token for that user's id, without roles, expiring at now plus the access lifetime |
| MemberService.RenewalSucceeds | src/main/java/com/lumeneditor/www/domain/auth/MemberServiceImpl.java:82-98 | a live session of a stored user on reachable stores gives exactly that renewed token |
| MemberService.RenewalOfUnknownUser | src/main/java/com/lumeneditor/www/domain/auth/MemberServiceImpl.java:88-95 | a live session whose user is not stored gives the token-data-required argument error |
| MemberService.MemberService.GetAccessToken | src/main/java/com/lumeneditor/www/domain/auth/MemberServiceImpl.java:82-98 | the renewal RenewalOf gives; nothing is written |
| MemberService.ExpiredTokenNotRenewed | src/main/java/com/lumeneditor/www/domain/auth/MemberServiceImpl.java:84 | an expired token raises the expiry, whatever the store holds |
| MemberService.NoSessionNoRenewal | src/main/java/com/lumeneditor/www/domain/auth/MemberServiceImpl.java:85-96 | with no live session entry the reply is null |
| MemberService.RenewedTokenShape | src/main/java/com/lumeneditor/www/domain/auth/MemberServiceImpl.java:88-94 | the renewed token carries the stored id, no roles, and is refused at the gate |
| MemberService.LoginIdentityIsDefault | src/main/java/com/lumeneditor/www/domain/auth/MemberServiceImpl.java:53-56 | the login token's roles claim is "" and its gate identity [ROLE_DEFAULT] |
| AuthService.SignedOut | src/main/java/com/lumeneditor/www/domain/auth/AuthServiceImpl.java:127-129 | the user's entry is no longer live; every other entry unchanged |
| AuthService.SignedOutIdempotent | src/main/java/com/lumeneditor/www/domain/auth/AuthServiceImpl.java:127-129 | logging out twice is logging out once |
| AuthService.ParseFailuresEscapeLogout | src/main/java/com/lumeneditor/www/domain/auth/AuthServiceImpl.java:125-137 | no parse failure is of a swallowed kind |
| AuthService.SignedUpRowShape | src/main/java/com/lumeneditor/www/domain/auth/AuthServiceImpl.java:105-109 | a signed-up user has role "User", the given id, and a password that matches the raw one |
| AuthService.AuthService.CheckEmailDuplication | src/main/java/com/lumeneditor/www/domain/auth/AuthServiceImpl.java:37-77 | 400 false for an invalid e-mail; 200 false when registered; otherwise the code of the draws saved and mailed, 200 true; any failure 500 with no body, a saved code staying; code table invariants preserved |
| AuthService.AuthService.VerifyAuthenticationCode | src/main/java/com/lumeneditor/www/domain/auth/AuthServiceImpl.java:84-97 | 200 with whether a record holds that code for that e-mail; nothing written |
| AuthService.AuthService.SignUp | src/main/java/com/lumeneditor/www/domain/auth/AuthServiceImpl.java:102-118 | the encoded password inserted after the create hook; 200 true, 400 false on integrity violation, 500 false otherwise |
| AuthService.AuthService.LogoutOutcome | src/main/java/com/lumeneditor/www/domain/auth/AuthServiceImpl.java:123-138 | parse failures and a null subject raise; a swallowed failure never escapes |
| AuthService.AuthService.LoggedOut | src/main/java/com/lumeneditor/www/domain/auth/AuthServiceImpl.java:125-129 | only the token user's entry can go, and after logout it is not live; every other entry keeps its key and value |
| AuthService.AuthService.Logout | src/main/java/com/lumeneditor/www/domain/auth/AuthServiceImpl.java:123-138 | returns LogoutOutcome and leaves the store as LoggedOut says |
| AuthController.LoginCookie | src/main/java/com/lumeneditor/www/domain/auth/AuthController.java:49-53 | "accessToken" with the reply's token, HttpOnly, path "/", no Max-Age |
| AuthController.ClearingCookie | src/main/java/com/lumeneditor/www/domain/auth/AuthController.java:69-73 | "accessToken" with null value, HttpOnly, path "/", Max-Age 0 |
| AuthController.LoginCookieRoundTrip | src/main/java/com/lumeneditor/www/domain/auth/AuthController.java:49-53 | a request carrying the login cookie hands back the issued token |
| AuthController.ClearingCookieCarriesNoToken | src/main/java/com/lumeneditor/www/domain/auth/AuthController.java:69-73 | the clearing cookie carries no token |
| AuthController.ExpiredLogoutIsServerError | src/main/java/com/lumeneditor/www/domain/auth/AuthController.java:76-80 | the controller called without the gate, with an expired token, raises the expiry and gets 500 from the catch-all handler |
| AuthController.ErrorReplyCookieEmpty | src/main/java/com/lumeneditor/www/domain/auth/AuthController.java:46-53 | the cookie of an error reply carries no token |
| AuthController.AuthController.SendAuthCode | src/main/java/com/lumeneditor/www/domain/auth/AuthController.java:24-27 | the service's answer and effects unchanged |
| AuthController.AuthController.Verify | src/main/java/com/lumeneditor/www/domain/auth/AuthController.java:30-33 | the service's answer unchanged |
| AuthController.AuthController.SignUp | src/main/java/com/lumeneditor/www/domain/auth/AuthController.java:36-39 | the service's answer and effects unchanged |
| AuthController.AuthController.Login | src/main/java/com/lumeneditor/www/domain/auth/AuthController.java:43-57 | 200 with the sign-in reply and the login cookie, set even for an error reply; a service failure escapes before the cookie |
| AuthController.LogoutThroughGate | src/main/java/com/lumeneditor/www/domain/auth/AuthController.java:61-81 | a logout request is refused by the gate with 401, or is served with a present token whose logout succeeds, giving 204 |
| AuthController.ExpiredLogoutRefusedByGate | src/main/java/com/lumeneditor/www/security/JwtAuthenticationFilter.java:61-68 | an expired token on the logout request gets the gate's JSON reply and a 401, never reaching the controller |
| AuthController.AuthController.Logout | src/main/java/com/lumeneditor/www/domain/auth/AuthController.java:61-81 | with a present token the clearing cookie, then the service; a service failure escapes; otherwise 204 and nothing changed |
| AccountService.UserNotFound | src/main/java/com/lumeneditor/www/domain/main/account/AccountServiceImpl.java:48-50 | EntityNotFound with the id, "null" for none |
| AccountService.Patched | src/main/java/com/lumeneditor/www/domain/main/account/AccountServiceImpl.java:55-64 | each of the ten fields takes the given value iff non-null; every other column unchanged |
| AccountService.PatchLaws | src/main/java/com/lumeneditor/www/domain/main/account/AccountServiceImpl.java:55-64 | nothing given changes nothing; a patch is idempotent; id and password never change |
| AccountService.FlagIsNotChange | src/main/java/com/lumeneditor/www/domain/main/account/AccountServiceImpl.java:52-68 | repeating a stored value answers true and changes nothing |
| AccountService.DetailsChangeStampsWithdrawal | src/main/java/com/lumeneditor/www/domain/main/account/AccountServiceImpl.java:66 | a real change is saved through onUpdate, stamping withdrawalDate |
| AccountService.NewPasswordAuthenticates | src/main/java/com/lumeneditor/www/domain/main/account/AccountServiceImpl.java:83-93 | after a password change the new password authenticates and no other |
| AccountService.WithdrawnUserStillAuthenticates | src/main/java/com/lumeneditor/www/domain/main/account/AccountServiceImpl.java:98-109 | withdrawal does not change what authentication gives |
| AccountService.UnknownUserIsServerError | src/main/java/com/lumeneditor/www/domain/main/account/AccountServiceImpl.java:104-106 | an unknown user ends in the catch-all 500 with the id in the message |
| AccountService.UpdateIfNotNull | src/main/java/com/lumeneditor/www/domain/main/account/AccountServiceImpl.java:72-78 | the given value replaces the current one iff non-null, and the flag says so |
| AccountService.AccountService.UserIdOf | src/main/java/com/lumeneditor/www/domain/main/account/AccountServiceImpl.java:115-121 | the subject of the cookie token through the strict parse |
| AccountService.AccountService.GetUser | src/main/java/com/lumeneditor/www/domain/main/account/AccountServiceImpl.java:28-38 | 200 with the stored row, password "", or 404; nothing written |
| AccountService.AccountService.UpdateUserDetails | src/main/java/com/lumeneditor/www/domain/main/account/AccountServiceImpl.java:43-69 | unknown id raises and saves nothing; otherwise the patched row saved back, the flag whether any field was given |
| AccountService.AccountService.UpdateUserPassword | src/main/java/com/lumeneditor/www/domain/main/account/AccountServiceImpl.java:83-93 | the id comes from the token; the encoded password stored; reply whether a row changed |
| AccountService.AccountService.DeleteUser | src/main/java/com/lumeneditor/www/domain/main/account/AccountServiceImpl.java:98-109 | withdrawal N, 1, today; no row raises EntityNotFound |

## Left out

- Cryptography and encoding: HMAC-SHA256 signing, the compact JWT serialisation and the Base64 decoding of the secret are library calls. A token is an abstract record that names its signing key. A weak secret refused by the key factory is not modelled.
- Redis: the client, its configuration and its connection handling. The store is a map from key to value and deadline, with a reachability flag.
- JPA and Hibernate execution:
  - Transactions and rollback are not modelled. The one operation whose outcome depends on the absence of a transaction, the code request, is modelled with the record staying after a mail failure.
  - Flush timing is not modelled.
  - The surrogate `userKey` is not modelled, so a save of a user is an insert or a write-back keyed by `userId`.
  - Code records with a null e-mail are kept but never queried by the services.
- Mail transport: MIME building, the sender address and the subject line. Sending is an append to an outbox that may fail.
- BCrypt: salting and cost are not modelled. The encoder is a deterministic injective stand-in. Real BCrypt reads only the first 72 bytes of a password, so a different password with the same 72-byte prefix also matches; `AccountService.NewPasswordAuthenticates` and `PasswordEncoder.MatchesOwnEncoding` do not capture this.
- The clock and the random generator are parameters. The JJWT expiry boundary is taken as "expired once now > exp", and the lemmas use strict margins. `CURRENT_DATE` is a day parameter and is not derived from `now`.
- Character classes and case mapping are ASCII only. The one regular expression is recognised by a hand-written automaton.
- Unpaired behaviour:
  - The mid-refactor bean wiring (`AppConfig`, `JwtSecurityConfig`).
  - `SpringContextUtil`, logging and timing.
  - The session policy, which is implicit in the gate storing a principal per request only.
  - CORS and CSRF settings.
  - Thread-per-request concurrency, and races between logout and renewal.
- `EmailService.Mailer.SendAuthenticationCodeEmail`: a transport failure is Spring's mail exception, which the source does not catch and which is not the custom exception. The model folds it into the custom failure. Both reach 500 through the code request, but the exception's class differs.
- `AuthService.AuthService.SignUp`: the method is transactional, and a caught integrity violation may already have marked the transaction rollback-only, so the commit could fail and answer 500. Transactions are not modelled, and the model answers 400 there.
- An unreachable database is one data-access failure in the model. The exact exception class the persistence layer raises (a transaction that cannot be created, a connection failure) is not modelled; each is a data-access failure. On the code request, sign-up and the account operations it answers 500. On login the authentication step wraps it as an internal authentication failure, which sign-in turns into the error token with 200.
- The access-token renewal endpoint is not mapped by any controller shown. `MemberService.MemberService.GetAccessToken` models the service method alone.
- The `Gender` enumeration's constants are not part of this model. The column is an opaque value.
- `JwtTokenProvider.JwtTokenProvider.GenerateToken`: the issue instant is one `now` for both tokens, and the millisecond granularity of `Date` is not modelled.
- The security context: neither logout nor any other operation of the source clears it. The gate stores a principal per request only, so the model keeps no context between requests.
