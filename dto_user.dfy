/** The web-layer user record: the same columns as the persistent user, without lifecycle hooks */
module WebDtoUser {

  import opened Wrappers
  import opened Errors
  import UserEntity

  /** The record is a plain value: it is only built and read */
  type User = UserEntity.UserRow

  /** The two-argument constructor: only the id and the password are set */
  function WithCredentials(userId: Option<string>, userPassword: Option<string>): User {
    UserEntity.EMPTY_ROW.(userId := userId, userPassword := userPassword)
  }

  /** getAuthorities: the same rule as the persistent user's */
  function Authorities(u: User): Result<seq<string>, Exception> {
    UserEntity.RoleAuthorities(u.role)
  }

  function Username(u: User): Option<string> {
    u.userId
  }

  function Password(u: User): Option<string> {
    u.userPassword
  }

  predicate IsAccountNonExpired(u: User) { true }
  predicate IsAccountNonLocked(u: User) { true }
  predicate IsCredentialsNonExpired(u: User) { true }
  predicate IsEnabled(u: User) { true }

  /** A record made by the two-argument constructor has no role and so no authorities; its
      username and password are the ones it was given */
  lemma WithCredentialsHasNoAuthorities(userId: Option<string>, userPassword: Option<string>)
    ensures WithCredentials(userId, userPassword).role.None?
    ensures Authorities(WithCredentials(userId, userPassword)) == Success([])
    ensures Username(WithCredentials(userId, userPassword)) == userId
    ensures Password(WithCredentials(userId, userPassword)) == userPassword
  {
  }

  /** The authorities of any record are empty or exactly its role */
  lemma AuthoritiesAreRole(u: User)
    ensures Authorities(u).Success? ==> Authorities(u).value == [] || Authorities(u).value == [u.role.value]
    ensures Authorities(u).Success? && Authorities(u).value != [] ==> u.role.Some? && u.role.value != ""
  {
  }
}
