/** The persistent user (table `user`) and its lifecycle hooks */
module UserEntity {

  import opened Wrappers
  import opened Errors
  import opened Enums
  import Text

  /** The columns of one user row; every column may hold null while the object is being built */
  datatype UserRow = UserRow(
    userId: Option<string>, userPassword: Option<string>, userName: Option<string>,
    phoneNumber: Option<string>, accessionDate: Option<int>, withdrawalDate: Option<int>,
    birthYear: Option<int>, occupation: Option<string>, country: Option<string>,
    gender: Option<Gender>, emailAccept: Option<YesNo>, promoAccept: Option<YesNo>,
    userStatus: Option<YesNo>, outInfo: Option<int>, subRound: Option<int>,
    company: Option<string>, isDeleted: Option<int>, logoImage: Option<string>,
    planKey: Option<int>, passwordRecovery: Option<int>, role: Option<string>)

  /** A row with every column null, as the no-argument constructor leaves it */
  const EMPTY_ROW: UserRow := UserRow(None, None, None, None, None, None, None, None, None, None, None,
                                      None, None, None, None, None, None, None, None, None, None)

  /** The role a newly persisted user gets */
  const DEFAULT_ROLE: string := "User"

  /** What SimpleGrantedAuthority says of a role without text */
  const AUTHORITY_REQUIRED: string := "A granted authority textual representation is required"

  /** getAuthorities: no authority for a null or empty role, else exactly the role, which must
      have text */
  function RoleAuthorities(role: Option<string>): (r: Result<seq<string>, Exception>)
    ensures role.None? || role.value == "" ==> r == Success([])
    ensures role.Some? && !Text.IsBlank(role.value) ==> r == Success([role.value])
    ensures role.Some? && role.value != "" && Text.IsBlank(role.value) ==>
              r == Failure(IllegalArgument(AUTHORITY_REQUIRED))
  {
    if role.None? || role.value == "" then Success([])
    else if Text.IsBlank(role.value) then Failure(IllegalArgument(AUTHORITY_REQUIRED))
    else Success([role.value])
  }

  /** The row after onCreate at `now` */
  function Created(r: UserRow, now: int): UserRow {
    r.(accessionDate := Some(now), emailAccept := Some(N), promoAccept := Some(N), userStatus := Some(Y),
       outInfo := Some(0), subRound := Some(0), isDeleted := Some(0), passwordRecovery := Some(now),
       planKey := Some(1), role := Some(DEFAULT_ROLE))
  }

  /** The row after onUpdate at `now` */
  function Updated(r: UserRow, now: int): UserRow {
    r.(withdrawalDate := Some(now), passwordRecovery := Some(now))
  }

  /** onCreate overwrites whatever the caller set for its columns: two rows that agree on the
      other columns are equal once created, and the role is always the default one */
  lemma CreatedIgnoresInput(r1: UserRow, r2: UserRow, now: int)
    requires r1.userId == r2.userId && r1.userPassword == r2.userPassword && r1.userName == r2.userName
    requires r1.phoneNumber == r2.phoneNumber && r1.withdrawalDate == r2.withdrawalDate
    requires r1.birthYear == r2.birthYear && r1.occupation == r2.occupation && r1.country == r2.country
    requires r1.gender == r2.gender && r1.company == r2.company && r1.logoImage == r2.logoImage
    ensures Created(r1, now) == Created(r2, now)
    ensures Created(r1, now).role == Some(DEFAULT_ROLE)
    ensures RoleAuthorities(Created(r1, now).role) == Success([DEFAULT_ROLE])
  {
    assert !Text.IsWhitespace(DEFAULT_ROLE[0]);
  }

  /** onUpdate marks the row as withdrawn at `now`, whatever the update was for */
  lemma UpdateStampsWithdrawal(r: UserRow, now: int)
    ensures Updated(r, now).withdrawalDate == Some(now)
    ensures Updated(r, now).passwordRecovery == Some(now)
    ensures Updated(r, now).(withdrawalDate := r.withdrawalDate, passwordRecovery := r.passwordRecovery) == r
  {
  }

  /** The user entity object; its columns are held together as one row value, which the
      setters and the lifecycle hooks replace */
  class User {
    var row: UserRow

    /** An object holding the given row, as the persistence layer loads it */
    constructor FromRow(r: UserRow)
      ensures row == r
    {
      row := r;
    }

    /** The three-argument constructor: only the id, the password and the role are set */
    constructor (userId: Option<string>, userPassword: Option<string>, role: Option<string>)
      ensures row == EMPTY_ROW.(userId := userId, userPassword := userPassword, role := role)
    {
      row := EMPTY_ROW.(userId := userId, userPassword := userPassword, role := role);
    }

    /** onCreate, run before the first insert */
    method OnCreate(now: int)
      modifies this
      ensures row == Created(old(row), now)
    {
      row := Created(row, now);
    }

    /** onUpdate, run before an update of a changed object */
    method OnUpdate(now: int)
      modifies this
      ensures row == Updated(old(row), now)
    {
      row := Updated(row, now);
    }

    /** setUserPassword */
    method SetUserPassword(password: Option<string>)
      modifies this
      ensures row == old(row).(userPassword := password)
    {
      row := row.(userPassword := password);
    }

    /** setUserId */
    method SetUserId(userId: Option<string>)
      modifies this
      ensures row == old(row).(userId := userId)
    {
      row := row.(userId := userId);
    }

    function GetAuthorities(): Result<seq<string>, Exception>
      reads this
    {
      RoleAuthorities(row.role)
    }

    /** getUsername is the user id and getPassword the stored password */
    function GetUsername(): Option<string>
      reads this
    {
      row.userId
    }

    function GetPassword(): Option<string>
      reads this
    {
      row.userPassword
    }

    /** The four account-status flags do not look at the row */
    predicate IsAccountNonExpired() { true }
    predicate IsAccountNonLocked() { true }
    predicate IsCredentialsNonExpired() { true }
    predicate IsEnabled() { true }
  }

  /** A withdrawn user (status N, deleted flag 1) is still enabled, unlocked and unexpired */
  lemma WithdrawnUserStillEnabled(u: User)
    requires u.row.userStatus == Some(N) && u.row.isDeleted == Some(1)
    ensures u.IsEnabled() && u.IsAccountNonLocked() && u.IsAccountNonExpired() && u.IsCredentialsNonExpired()
  {
  }
}
