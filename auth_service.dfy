/** Code request, code check, sign-up and logout */
module AuthService {

  import opened Wrappers
  import opened Errors
  import opened Enums
  import opened Jwt
  import opened Http
  import EmailUtils
  import SessionStore
  import PasswordEncoder
  import opened UserEntity
  import AccountRepository
  import EmailAuthEntity
  import EmailAuthRepository
  import EmailService
  import opened JwtTokenProvider

  /** The session store after logging out `key` at `now`: the entry goes if a read still sees it */
  function SignedOut(entries: map<string, SessionStore.Entry>, key: string, now: int)
    : (m: map<string, SessionStore.Entry>)
    ensures SessionStore.Live(m, key, now).None?
    ensures forall k :: k != key ==> (k in m <==> k in entries) && (k in m ==> m[k] == entries[k])
  {
    if SessionStore.Live(entries, key, now).Some? then entries - {key} else entries
  }

  /** Logging out twice is logging out once */
  lemma SignedOutIdempotent(entries: map<string, SessionStore.Entry>, key: string, now: int)
    ensures SignedOut(SignedOut(entries, key, now), key, now) == SignedOut(entries, key, now)
  {
  }

  /** The exceptions logout swallows */
  predicate Swallowed(e: Exception) {
    e.InvalidToken? || e.IsDataAccessException()
  }

  /** None of the failures of reading a token's subject is swallowed: an expired, forged,
      malformed or empty token makes logout raise */
  lemma ParseFailuresEscapeLogout(p: JwtTokenProvider, token: Option<Credential>, now: int)
    ensures p.GetAdminUserInfoFromToken(token, now).Failure? ==>
              !Swallowed(p.GetAdminUserInfoFromToken(token, now).error)
  {
  }

  /** The row a successful sign-up stores: the create hook has overwritten the defaults and the
      password is the encoding of the one given */
  function SignedUpRow(user: UserRow, encoded: string, now: int): UserRow {
    Created(user.(userPassword := Some(encoded)), now)
  }

  /** A signed-up user always has role "User", and the stored password matches the raw one */
  lemma SignedUpRowShape(user: UserRow, now: int)
    requires user.userPassword.Some?
    ensures var row := SignedUpRow(user, PasswordEncoder.Encode(user.userPassword).value, now);
            row.role == Some(DEFAULT_ROLE) && row.userId == user.userId && row.accessionDate == Some(now)
            && PasswordEncoder.Matches(user.userPassword.value, row.userPassword)
  {
  }

  class AuthService {
    const provider: JwtTokenProvider
    const users: AccountRepository.UserTable
    const codes: EmailAuthRepository.CodeTable
    const mailer: EmailService.Mailer

    constructor (provider: JwtTokenProvider, users: AccountRepository.UserTable,
                 codes: EmailAuthRepository.CodeTable, mailer: EmailService.Mailer)
      ensures this.provider == provider && this.users == users && this.codes == codes && this.mailer == mailer
    {
      this.provider := provider;
      this.users := users;
      this.codes := codes;
      this.mailer := mailer;
    }

    /** checkEmailDuplication, with the six random draws of the code given: a malformed address
        is refused, a registered one answered false, otherwise a code is stored and then mailed;
        every failure on the way becomes 500 with no body, and a stored code stays when the
        mail fails */
    method CheckEmailDuplication(user: UserRow, draws: seq<int>) returns (r: Response<bool>)
      requires |draws| == EmailUtils.CODE_LENGTH
      requires forall i :: 0 <= i < |draws| ==> 0 <= draws[i] < EmailUtils.RANDOM_BOUND
      modifies codes`rows, mailer`outbox
      ensures var email := user.userId;
              !EmailUtils.IsValidEmail(email) ==>
                r == Response(BAD_REQUEST, Some(false)) && codes.rows == old(codes.rows) && mailer.outbox == old(mailer.outbox)
      ensures var email := user.userId;
              EmailUtils.IsValidEmail(email) && !users.up ==>
                r == Response(INTERNAL_SERVER_ERROR, None) && codes.rows == old(codes.rows) && mailer.outbox == old(mailer.outbox)
      ensures var email := user.userId;
              EmailUtils.IsValidEmail(email) && users.up && AccountRepository.Lookup(users.rows, email).Some? ==>
                r == Response(OK, Some(false)) && codes.rows == old(codes.rows) && mailer.outbox == old(mailer.outbox)
      ensures var email := user.userId;
              var code := EmailUtils.CodeOf(draws);
              var saved := EmailAuthRepository.SaveResult(old(codes.rows), codes.up, email, Some(code), N);
              EmailUtils.IsValidEmail(email) && users.up && AccountRepository.Lookup(users.rows, email).None? ==>
                (saved.Failure? ==>
                   r == Response(INTERNAL_SERVER_ERROR, None) && codes.rows == old(codes.rows)
                   && mailer.outbox == old(mailer.outbox))
                && (saved.Success? ==> codes.rows == saved.value)
                && (saved.Success? && mailer.up ==>
                      r == Response(OK, Some(true)) && mailer.outbox == old(mailer.outbox) + [(email.value, code)])
                && (saved.Success? && !mailer.up ==>
                      r == Response(INTERNAL_SERVER_ERROR, None) && mailer.outbox == old(mailer.outbox))
      ensures EmailAuthRepository.UniqueEmails(old(codes.rows)) ==> EmailAuthRepository.UniqueEmails(codes.rows)
      ensures EmailAuthRepository.UniqueEmails(old(codes.rows)) && EmailAuthRepository.AllPending(old(codes.rows)) ==>
                EmailAuthRepository.AllPending(codes.rows)
    {
      if !EmailUtils.IsValidEmail(user.userId) {
        return Response(BAD_REQUEST, Some(false));
      }
      var count := users.CountByUserId(user.userId);
      if count.Failure? {
        return Response(INTERNAL_SERVER_ERROR, None);
      }
      if count.value > 0 {
        return Response(OK, Some(false));
      }
      var code := EmailUtils.CreateCode(draws);
      var emailAuth := new EmailAuthEntity.EmailAuth(user.userId, Some(code));
      ghost var before := codes.rows;
      var saved := codes.Save(emailAuth);
      if saved.Failure? {
        return Response(INTERNAL_SERVER_ERROR, None);
      }
      if EmailAuthRepository.UniqueEmails(before) {
        EmailAuthRepository.SaveKeepsInvariants(before, codes.up, user.userId, Some(code), N);
      }
      var sent := mailer.SendAuthenticationCodeEmail(emailAuth.authEmail, emailAuth.authCode);
      if sent.Failure? {
        return Response(INTERNAL_SERVER_ERROR, None);
      }
      r := Response(OK, Some(true));
    }

    /** verifyAuthenticationCode: true exactly when a record holds that code for that e-mail;
        nothing is written, so no record is ever marked verified */
    method VerifyAuthenticationCode(code: Option<string>, email: Option<string>)
      returns (r: Result<Response<bool>, Exception>)
      ensures var found := EmailAuthRepository.FindResult(codes.rows, codes.up, code, email);
              (found.Failure? ==> r == Failure(found.error))
              && (found.Success? ==> r == Success(Response(OK, Some(found.value.Some?))))
    {
      var found := codes.FindByAuthCodeAndAuthEmail(code, email);
      if found.Failure? {
        return Failure(found.error);
      }
      r := Success(Response(OK, Some(found.value.Some?)));
    }

    /** signUp: the password is replaced by its encoding and the user inserted; a constraint
        violation gives 400 false, any other failure 500 false */
    method SignUp(user: UserRow, now: int) returns (r: Response<bool>)
      modifies users`rows
      ensures var encoded := PasswordEncoder.Encode(user.userPassword);
              encoded.Failure? || !users.up ==>
                r == Response(INTERNAL_SERVER_ERROR, Some(false)) && users.rows == old(users.rows)
      ensures var encoded := PasswordEncoder.Encode(user.userPassword);
              encoded.Success? && users.up ==>
                var inserted := AccountRepository.InsertResult(old(users.rows), SignedUpRow(user, encoded.value, now));
                (inserted.Success? ==> r == Response(OK, Some(true)) && users.rows == inserted.value)
                && (inserted.Failure? ==> r == Response(BAD_REQUEST, Some(false)) && users.rows == old(users.rows))
    {
      var u := new User.FromRow(user);
      var encoded := PasswordEncoder.Encode(u.row.userPassword);
      if encoded.Failure? {
        return Response(INTERNAL_SERVER_ERROR, Some(false));
      }
      u.SetUserPassword(Some(encoded.value));
      var inserted := users.Insert(u, now);
      if inserted.Success? {
        r := Response(OK, Some(true));
      } else if inserted.error.DataIntegrityViolation? {
        r := Response(BAD_REQUEST, Some(false));
      } else {
        r := Response(INTERNAL_SERVER_ERROR, Some(false));
      }
    }

    /** What logout returns: the failure of reading the subject, the refusal of a null key, or
        normal completion (a store that cannot be reached is swallowed) */
    function LogoutOutcome(accessToken: Option<Credential>, now: int): (r: Result<(), Exception>)
      ensures r.Failure? ==> !Swallowed(r.error)
      ensures var id := provider.GetAdminUserInfoFromToken(accessToken, now);
              (id.Failure? ==> r == Failure(id.error))
              && (id.Success? && id.value.None? ==> r == Failure(IllegalArgument(SessionStore.NULL_KEY)))
              && (id.Success? && id.value.Some? ==> r == Success(()))
    {
      var id := provider.GetAdminUserInfoFromToken(accessToken, now);
      ParseFailuresEscapeLogout(provider, accessToken, now);
      if id.Failure? then Failure(id.error)
      else if id.value.None? then Failure(IllegalArgument(SessionStore.NULL_KEY))
      else Success(())
    }

    /** The session entries after logout: only the token user's entry can go */
    function LoggedOut(accessToken: Option<Credential>, now: int): (m: map<string, SessionStore.Entry>)
      reads provider.store
      ensures LogoutOutcome(accessToken, now).Failure? || !provider.store.up ==> m == provider.store.entries
      ensures var id := provider.GetAdminUserInfoFromToken(accessToken, now);
              id.Success? && id.value.Some? && provider.store.up ==>
                SessionStore.Live(m, id.value.value, now).None?
                && forall k :: k != id.value.value ==>
                     (k in m <==> k in provider.store.entries) && (k in m ==> m[k] == provider.store.entries[k])
      ensures m.Keys <= provider.store.entries.Keys
    {
      var id := provider.GetAdminUserInfoFromToken(accessToken, now);
      if id.Success? && id.value.Some? && provider.store.up
      then SignedOut(provider.store.entries, id.value.value, now)
      else provider.store.entries
    }

    /** logout: removes the session entry of the token's user when a read still sees it; only
        invalid-token and data-access failures are swallowed */
    method Logout(accessToken: Option<Credential>, now: int) returns (r: Result<(), Exception>)
      modifies provider.store`entries
      ensures r == LogoutOutcome(accessToken, now)
      ensures provider.store.entries == old(LoggedOut(accessToken, now))
    {
      var id := provider.GetAdminUserInfoFromToken(accessToken, now);
      if id.Failure? {
        ParseFailuresEscapeLogout(provider, accessToken, now);
        return Failure(id.error);
      }
      var refresh := provider.store.Get(id.value, now);
      if refresh.Failure? {
        if Swallowed(refresh.error) {
          return Success(());
        }
        return Failure(refresh.error);
      }
      if refresh.value.Some? {
        var deleted := provider.store.Delete(id.value, now);
      }
      r := Success(());
    }
  }
}
