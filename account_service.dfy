/** The account endpoints: read, patch, password change and withdrawal of the signed-in user */
module AccountService {

  import opened Wrappers
  import opened Errors
  import opened Enums
  import opened Jwt
  import opened Http
  import JwtTokenUtil
  import PasswordEncoder
  import opened UserEntity
  import AccountRepository
  import CustomUserDetailsService
  import MemberService
  import GlobalExceptionHandler
  import opened JwtTokenProvider

  /** The message of the failure for a user id with no row */
  const NOT_FOUND_PREFIX: string := "User not found with id: "

  /** The failure raised for a user id that names no row */
  function UserNotFound(userId: Option<string>): (e: Exception)
    ensures e.EntityNotFound? && e.msg == NOT_FOUND_PREFIX + NullText(userId)
  {
    EntityNotFound(NOT_FOUND_PREFIX + NullText(userId))
  }

  /** The ten columns a details update may change, each only when the request gives a value */
  function Patched(existing: UserRow, user: UserRow): (r: UserRow)
    ensures r.phoneNumber == (if user.phoneNumber.Some? then user.phoneNumber else existing.phoneNumber)
    ensures r.birthYear == (if user.birthYear.Some? then user.birthYear else existing.birthYear)
    ensures r.occupation == (if user.occupation.Some? then user.occupation else existing.occupation)
    ensures r.country == (if user.country.Some? then user.country else existing.country)
    ensures r.gender == (if user.gender.Some? then user.gender else existing.gender)
    ensures r.emailAccept == (if user.emailAccept.Some? then user.emailAccept else existing.emailAccept)
    ensures r.promoAccept == (if user.promoAccept.Some? then user.promoAccept else existing.promoAccept)
    ensures r.company == (if user.company.Some? then user.company else existing.company)
    ensures r.logoImage == (if user.logoImage.Some? then user.logoImage else existing.logoImage)
    ensures r.role == (if user.role.Some? then user.role else existing.role)
    ensures r.(phoneNumber := existing.phoneNumber, birthYear := existing.birthYear,
               occupation := existing.occupation, country := existing.country, gender := existing.gender,
               emailAccept := existing.emailAccept, promoAccept := existing.promoAccept,
               company := existing.company, logoImage := existing.logoImage, role := existing.role) == existing
  {
    existing.(phoneNumber := Or(user.phoneNumber, existing.phoneNumber),
              birthYear := Or(user.birthYear, existing.birthYear),
              occupation := Or(user.occupation, existing.occupation),
              country := Or(user.country, existing.country),
              gender := Or(user.gender, existing.gender),
              emailAccept := Or(user.emailAccept, existing.emailAccept),
              promoAccept := Or(user.promoAccept, existing.promoAccept),
              company := Or(user.company, existing.company),
              logoImage := Or(user.logoImage, existing.logoImage),
              role := Or(user.role, existing.role))
  }

  /** The given value when there is one, else the current one */
  function Or<T>(given: Option<T>, current: Option<T>): Option<T> {
    if given.Some? then given else current
  }

  /** Whether the request gives a value for any of the ten columns */
  predicate AnyGiven(user: UserRow) {
    user.phoneNumber.Some? || user.birthYear.Some? || user.occupation.Some? || user.country.Some?
    || user.gender.Some? || user.emailAccept.Some? || user.promoAccept.Some? || user.company.Some?
    || user.logoImage.Some? || user.role.Some?
  }

  /** A request that gives no value leaves the row as it is; applying a request twice is
      applying it once */
  lemma PatchLaws(existing: UserRow, user: UserRow)
    ensures !AnyGiven(user) ==> Patched(existing, user) == existing
    ensures Patched(Patched(existing, user), user) == Patched(existing, user)
    ensures Patched(existing, user).userId == existing.userId
            && Patched(existing, user).userPassword == existing.userPassword
  {
  }

  /** The reply flag is not whether the row changed: a request that repeats the stored values
      answers true and stores nothing new */
  lemma FlagIsNotChange(existing: UserRow)
    requires existing.phoneNumber.Some?
    ensures var user := EMPTY_ROW.(phoneNumber := existing.phoneNumber);
            AnyGiven(user) && Patched(existing, user) == existing
  {
  }

  /** Any real change to the details is stored through the update hook, which stamps the
      withdrawal date: the user then looks withdrawn */
  lemma DetailsChangeStampsWithdrawal(existing: UserRow, user: UserRow, now: int)
    requires Patched(existing, user) != existing
    ensures AccountRepository.WrittenBack(existing, Patched(existing, user), now).withdrawalDate == Some(now)
  {
  }

  /** After a password change the user authenticates with the new password and with no other */
  lemma NewPasswordAuthenticates(rows: map<string, UserRow>, id: string, raw: string, other: string, today: int)
    requires AccountRepository.WellFormed(rows)
    requires id in rows && id != ""
    ensures var after := AccountRepository.PasswordUpdated(rows, id, PasswordEncoder.Encode(Some(raw)).value, today);
            MemberService.Authenticate(after, true, Some(id), Some(raw)).Success?
            && (MemberService.Authenticate(after, true, Some(id), Some(other)).Success? ==> other == raw)
  {
    var encoded := PasswordEncoder.Encode(Some(raw)).value;
    var after := AccountRepository.PasswordUpdated(rows, id, encoded, today);
    AccountRepository.UpdatesKeepWellFormed(rows, id, encoded, N, 1, today, rows[id]);
    CustomUserDetailsService.KnownUserLoads(after, id);
    PasswordEncoder.MatchesOwnEncoding(raw, other);
  }

  /** Withdrawal does not stop login: the columns it sets play no part in authentication */
  lemma WithdrawnUserStillAuthenticates(rows: map<string, UserRow>, up: bool, id: string,
                                        password: Option<string>, today: int)
    requires id in rows
    ensures MemberService.Authenticate(AccountRepository.WithdrawalApplied(rows, id, N, 1, today), up, Some(id), password)
         == MemberService.Authenticate(rows, up, Some(id), password)
  {
  }

  /** A request for an unknown user ends in the catch-all reply, 500 */
  lemma UnknownUserIsServerError(userId: Option<string>)
    ensures GlobalExceptionHandler.Handle(UserNotFound(userId)) ==
              Response(INTERNAL_SERVER_ERROR,
                       Some(GlobalExceptionHandler.UNEXPECTED_PREFIX + NOT_FOUND_PREFIX + NullText(userId)))
  {
    var u, n, t := GlobalExceptionHandler.UNEXPECTED_PREFIX, NOT_FOUND_PREFIX, NullText(userId);
    assert u + (n + t) == u + n + t;
  }

  /** updateIfNotNull: the given value replaces the current one when it is not null, and the
      flag says whether it did */
  method UpdateIfNotNull<T>(given: Option<T>, current: Option<T>) returns (value: Option<T>, changed: bool)
    ensures changed <==> given.Some?
    ensures value == (if given.Some? then given else current)
  {
    if given.Some? {
      return given, true;
    }
    return current, false;
  }

  class AccountService {
    const provider: JwtTokenProvider
    const users: AccountRepository.UserTable

    constructor (provider: JwtTokenProvider, users: AccountRepository.UserTable)
      ensures this.provider == provider && this.users == users
    {
      this.provider := provider;
      this.users := users;
    }

    /** The id of the signed-in user: the subject of the access-token cookie, read strictly */
    function UserIdOf(request: Request, now: int): (r: Result<Option<string>, Exception>)
      ensures var t := JwtTokenUtil.ExtractTokenFromCookies(request.cookies);
              (r.Success? <==> Parse(t, provider.key, now).Ok?)
              && (r.Success? ==> r.value == Parse(t, provider.key, now).claims.sub)
    {
      provider.GetAdminUserInfoFromToken(JwtTokenUtil.ExtractTokenFromCookies(request.cookies), now)
    }

    /** getUser: the stored row with the password blanked in the reply, or 404; the read-only
        transaction writes nothing back */
    method GetUser(request: Request, now: int) returns (r: Result<Response<UserRow>, Exception>)
      ensures UserIdOf(request, now).Failure? ==> r == Failure(UserIdOf(request, now).error)
      ensures UserIdOf(request, now).Success? && !users.up ==> r == Failure(DataAccess(StoreUnavailable))
      ensures UserIdOf(request, now).Success? && users.up ==>
                var found := AccountRepository.Lookup(users.rows, UserIdOf(request, now).value);
                (found.None? ==> r == Success(Response(NOT_FOUND, None)))
                && (found.Some? ==> r == Success(Response(OK, Some(found.value.(userPassword := Some(""))))))
    {
      var id := UserIdOf(request, now);
      if id.Failure? {
        return Failure(id.error);
      }
      var user := users.FindByUserId(id.value);
      if user.Failure? {
        return Failure(user.error);
      }
      if user.value.Some? {
        var shown := new User.FromRow(user.value.value);
        shown.SetUserPassword(Some(""));
        r := Success(Response(OK, Some(shown.row)));
      } else {
        r := Success(Response(NOT_FOUND, None));
      }
    }

    /** updateUserDetails: each given column is copied onto the stored row, which is saved back;
        the reply says whether any column was given */
    method UpdateUserDetails(request: Request, user: UserRow, now: int) returns (r: Result<Response<bool>, Exception>)
      modifies users`rows
      ensures UserIdOf(request, now).Failure? ==>
                r == Failure(UserIdOf(request, now).error) && users.rows == old(users.rows)
      ensures UserIdOf(request, now).Success? && !users.up ==>
                r == Failure(DataAccess(StoreUnavailable)) && users.rows == old(users.rows)
      ensures var id := UserIdOf(request, now);
              id.Success? && users.up && AccountRepository.Lookup(old(users.rows), id.value).None? ==>
                r == Failure(UserNotFound(id.value)) && users.rows == old(users.rows)
      ensures var id := UserIdOf(request, now);
              id.Success? && users.up && AccountRepository.Lookup(old(users.rows), id.value).Some? ==>
                var key := id.value.value;
                r == Success(Response(OK, Some(AnyGiven(user))))
                && users.rows == old(users.rows)[key := AccountRepository.WrittenBack(old(users.rows[key]),
                                                                                   Patched(old(users.rows[key]), user), now)]
    {
      var id := UserIdOf(request, now);
      if id.Failure? {
        return Failure(id.error);
      }
      var found := users.FindByUserId(id.value);
      if found.Failure? {
        return Failure(found.error);
      }
      if found.value.None? {
        return Failure(UserNotFound(id.value));
      }
      var stored := found.value.value;
      var updated := false;
      var phoneNumber, given0 := UpdateIfNotNull(user.phoneNumber, stored.phoneNumber);
      updated := updated || given0;
      var birthYear, given1 := UpdateIfNotNull(user.birthYear, stored.birthYear);
      updated := updated || given1;
      var occupation, given2 := UpdateIfNotNull(user.occupation, stored.occupation);
      updated := updated || given2;
      var country, given3 := UpdateIfNotNull(user.country, stored.country);
      updated := updated || given3;
      var gender, given4 := UpdateIfNotNull(user.gender, stored.gender);
      updated := updated || given4;
      var emailAccept, given5 := UpdateIfNotNull(user.emailAccept, stored.emailAccept);
      updated := updated || given5;
      var promoAccept, given6 := UpdateIfNotNull(user.promoAccept, stored.promoAccept);
      updated := updated || given6;
      var company, given7 := UpdateIfNotNull(user.company, stored.company);
      updated := updated || given7;
      var logoImage, given8 := UpdateIfNotNull(user.logoImage, stored.logoImage);
      updated := updated || given8;
      var role, given9 := UpdateIfNotNull(user.role, stored.role);
      updated := updated || given9;
      var edited := stored.(phoneNumber := phoneNumber, birthYear := birthYear, occupation := occupation,
                            country := country, gender := gender, emailAccept := emailAccept,
                            promoAccept := promoAccept, company := company, logoImage := logoImage, role := role);
      var existing := new User.FromRow(edited);
      var saved := users.Update(existing, id.value.value, now);
      if saved.Failure? {
        return Failure(saved.error);
      }
      r := Success(Response(OK, Some(updated)));
    }

    /** updateUserPassword: the encoded password is written to the signed-in user's row by a bulk
        update, which runs no entity hook; the reply says whether a row was changed */
    method UpdateUserPassword(request: Request, user: UserRow, today: int) returns (r: Result<Response<bool>, Exception>)
      modifies users`rows
      ensures UserIdOf(request, today).Failure? ==>
                r == Failure(UserIdOf(request, today).error) && users.rows == old(users.rows)
      ensures UserIdOf(request, today).Success? && user.userPassword.None? ==>
                r == Failure(IllegalArgument(PasswordEncoder.RAW_REQUIRED)) && users.rows == old(users.rows)
      ensures UserIdOf(request, today).Success? && user.userPassword.Some? && !users.up ==>
                r == Failure(DataAccess(StoreUnavailable)) && users.rows == old(users.rows)
      ensures var id := UserIdOf(request, today);
              id.Success? && user.userPassword.Some? && users.up ==>
                var changed := AccountRepository.Lookup(old(users.rows), id.value).Some?;
                r == Success(Response(OK, Some(changed)))
                && (changed ==> users.rows == AccountRepository.PasswordUpdated(
                                                old(users.rows), id.value.value,
                                                PasswordEncoder.Encode(user.userPassword).value, today))
                && (!changed ==> users.rows == old(users.rows))
    {
      var id := UserIdOf(request, today);
      if id.Failure? {
        return Failure(id.error);
      }
      var request' := user.(userId := id.value);
      var encoded := PasswordEncoder.Encode(request'.userPassword);
      if encoded.Failure? {
        return Failure(encoded.error);
      }
      var count := users.UpdateUserPasswordById(encoded.value, request'.userId, today);
      if count.Failure? {
        return Failure(count.error);
      }
      r := Success(Response(OK, Some(count.value > 0)));
    }

    /** deleteUser: the withdrawal columns of the signed-in user's row are set by a bulk update;
        no row to change is a failure */
    method DeleteUser(request: Request, today: int) returns (r: Result<Response<bool>, Exception>)
      modifies users`rows
      ensures UserIdOf(request, today).Failure? ==>
                r == Failure(UserIdOf(request, today).error) && users.rows == old(users.rows)
      ensures UserIdOf(request, today).Success? && !users.up ==>
                r == Failure(DataAccess(StoreUnavailable)) && users.rows == old(users.rows)
      ensures var id := UserIdOf(request, today);
              id.Success? && users.up && AccountRepository.Lookup(old(users.rows), id.value).None? ==>
                r == Failure(UserNotFound(id.value)) && users.rows == old(users.rows)
      ensures var id := UserIdOf(request, today);
              id.Success? && users.up && AccountRepository.Lookup(old(users.rows), id.value).Some? ==>
                r == Success(Response(OK, Some(true)))
                && users.rows == AccountRepository.WithdrawalApplied(old(users.rows), id.value.value, N, 1, today)
    {
      var id := UserIdOf(request, today);
      if id.Failure? {
        return Failure(id.error);
      }
      var count := users.DeleteUser(id.value, N, 1, today);
      if count.Failure? {
        return Failure(count.error);
      }
      if count.value == 0 {
        return Failure(UserNotFound(id.value));
      }
      r := Success(Response(OK, Some(true)));
    }
  }
}
