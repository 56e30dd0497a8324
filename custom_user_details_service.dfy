/** The user lookup that login authenticates against */
module CustomUserDetailsService {

  import opened Wrappers
  import opened Errors
  import opened UserEntity
  import AccountRepository

  const NOT_FOUND_PREFIX: string := "User not found with username: "

  /** What the security user record refuses: a null or empty name, or a null password */
  const USER_VALUES_REQUIRED: string := "Cannot pass null or empty values to constructor"

  /** The security user record: name, password and granted authorities; its four account-status
      flags are all true */
  datatype UserDetails = UserDetails(username: string, password: string, authorities: seq<string>)

  /** createUserDetails: always an empty authority set, whatever the stored role */
  function CreateUserDetails(user: UserRow): (r: Result<UserDetails, Exception>)
    ensures r.Success? <==> user.userId.Some? && user.userId.value != "" && user.userPassword.Some?
    ensures r.Failure? ==> r.error == IllegalArgument(USER_VALUES_REQUIRED)
    ensures r.Success? ==> r.value == UserDetails(user.userId.value, user.userPassword.value, [])
  {
    if user.userId.None? || user.userId.value == "" || user.userPassword.None?
    then Failure(IllegalArgument(USER_VALUES_REQUIRED))
    else Success(UserDetails(user.userId.value, user.userPassword.value, []))
  }

  /** loadUserByUsername against the user table: a lookup failure is passed on unchanged, an
      unknown id is refused with its name in the message */
  function LoadUserByUsername(rows: map<string, UserRow>, up: bool, userId: Option<string>)
    : (r: Result<UserDetails, Exception>)
    ensures !up ==> r == Failure(DataAccess(StoreUnavailable))
    ensures up && AccountRepository.Lookup(rows, userId).None? ==>
              r == Failure(UsernameNotFound(NOT_FOUND_PREFIX + NullText(userId)))
    ensures r.Success? ==> up && AccountRepository.Lookup(rows, userId).Some?
                           && Some(r.value.username) == rows[userId.value].userId
                           && Some(r.value.password) == rows[userId.value].userPassword
                           && r.value.authorities == []
  {
    if !up then Failure(DataAccess(StoreUnavailable))
    else
      match AccountRepository.Lookup(rows, userId)
      case None => Failure(UsernameNotFound(NOT_FOUND_PREFIX + NullText(userId)))
      case Some(row) => CreateUserDetails(AccountRepository.Credentials(row))
  }

  /** On a well-formed table a known, non-empty id always loads, to the stored id and password */
  lemma KnownUserLoads(rows: map<string, UserRow>, userId: string)
    requires AccountRepository.WellFormed(rows)
    requires userId in rows && userId != ""
    ensures LoadUserByUsername(rows, true, Some(userId)) ==
              Success(UserDetails(userId, rows[userId].userPassword.value, []))
  {
  }

  /** The stored role plays no part in what is loaded */
  lemma RoleIgnored(rows: map<string, UserRow>, up: bool, userId: string, role: Option<string>)
    requires userId in rows
    ensures LoadUserByUsername(rows[userId := rows[userId].(role := role)], up, Some(userId)) ==
              LoadUserByUsername(rows, up, Some(userId))
  {
  }
}
