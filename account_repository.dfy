/** The user table, with the queries of the account repository and of the login repository */
module AccountRepository {

  import opened Wrappers
  import opened Errors
  import opened Enums
  import opened UserEntity

  /** The integrity failures an insert can hit */
  const NOT_NULL_VIOLATION: string := "not-null property references a null or transient value"
  const DUPLICATE_USER_ID: string := "Duplicate entry for key 'user_id'"

  /** The columns declared not null are set */
  predicate Complete(r: UserRow) {
    r.userId.Some? && r.userPassword.Some? && r.userName.Some? && r.accessionDate.Some?
  }

  /** The table is keyed by the unique user id, and every stored row is complete */
  predicate WellFormed(rows: map<string, UserRow>) {
    forall k :: k in rows ==> rows[k].userId == Some(k) && Complete(rows[k])
  }

  /** The row a query by user id finds; a null id finds nothing, since no stored id is null */
  function Lookup(rows: map<string, UserRow>, userId: Option<string>): (r: Option<UserRow>)
    ensures r.Some? <==> userId.Some? && userId.value in rows
    ensures r.Some? ==> r.value == rows[userId.value]
  {
    if userId.Some? && userId.value in rows then Some(rows[userId.value]) else None
  }

  /** The login projection of a row: only the id, the password and the role, through the
      three-argument constructor */
  function Credentials(row: UserRow): UserRow {
    EMPTY_ROW.(userId := row.userId, userPassword := row.userPassword, role := row.role)
  }

  /** The rows after the password update of `userId` on day `today` */
  function PasswordUpdated(rows: map<string, UserRow>, userId: string, password: string, today: int)
    : (m: map<string, UserRow>)
    ensures m.Keys == rows.Keys
    ensures forall k :: k in rows && k != userId ==> m[k] == rows[k]
    ensures userId in rows ==>
              m[userId] == rows[userId].(userPassword := Some(password), passwordRecovery := Some(today))
  {
    if userId in rows
    then rows[userId := rows[userId].(userPassword := Some(password), passwordRecovery := Some(today))]
    else rows
  }

  /** The rows after the withdrawal of `userId` on day `today` */
  function WithdrawalApplied(rows: map<string, UserRow>, userId: string, status: YesNo, isDeleted: int,
                             today: int): (m: map<string, UserRow>)
    ensures m.Keys == rows.Keys
    ensures forall k :: k in rows && k != userId ==> m[k] == rows[k]
    ensures userId in rows ==>
              m[userId] == rows[userId].(userStatus := Some(status), isDeleted := Some(isDeleted),
                                         withdrawalDate := Some(today))
  {
    if userId in rows
    then rows[userId := rows[userId].(userStatus := Some(status), isDeleted := Some(isDeleted),
                                      withdrawalDate := Some(today))]
    else rows
  }

  /** The rows after inserting a new row, or the constraint that refuses it */
  function InsertResult(rows: map<string, UserRow>, row: UserRow): (r: Result<map<string, UserRow>, Exception>)
    ensures r.Success? <==> Complete(row) && row.userId.value !in rows
    ensures !Complete(row) ==> r == Failure(DataIntegrityViolation(NOT_NULL_VIOLATION))
    ensures Complete(row) && row.userId.value in rows ==> r == Failure(DataIntegrityViolation(DUPLICATE_USER_ID))
    ensures r.Success? ==> r.value == rows[row.userId.value := row]
  {
    if !Complete(row) then Failure(DataIntegrityViolation(NOT_NULL_VIOLATION))
    else if row.userId.value in rows then Failure(DataIntegrityViolation(DUPLICATE_USER_ID))
    else Success(rows[row.userId.value := row])
  }

  /** The row an update of a loaded user writes back: the update hook runs only when some column
      differs from the stored row */
  function WrittenBack(stored: UserRow, edited: UserRow, now: int): UserRow {
    if edited == stored then stored else Updated(edited, now)
  }

  /** Every update query and insert keeps the table keyed and complete */
  lemma UpdatesKeepWellFormed(rows: map<string, UserRow>, userId: string, password: string,
                              status: YesNo, isDeleted: int, today: int, row: UserRow)
    requires WellFormed(rows)
    ensures WellFormed(PasswordUpdated(rows, userId, password, today))
    ensures WellFormed(WithdrawalApplied(rows, userId, status, isDeleted, today))
    ensures InsertResult(rows, row).Success? ==> WellFormed(InsertResult(rows, row).value)
  {
  }

  /** A password update followed by a withdrawal touches disjoint columns: the order does not matter */
  lemma UpdatesCommute(rows: map<string, UserRow>, userId: string, password: string,
                       status: YesNo, isDeleted: int, today: int)
    ensures WithdrawalApplied(PasswordUpdated(rows, userId, password, today), userId, status, isDeleted, today)
         == PasswordUpdated(WithdrawalApplied(rows, userId, status, isDeleted, today), userId, password, today)
  {
  }

  class UserTable {
    var rows: map<string, UserRow>
    /** Whether the database can be reached */
    var up: bool

    constructor (up: bool)
      ensures rows == map[] && this.up == up
    {
      rows := map[];
      this.up := up;
    }

    /** findByUserId: the whole row with that id, or null */
    method FindByUserId(userId: Option<string>) returns (r: Result<Option<UserRow>, Exception>)
      ensures r.Success? <==> up
      ensures r.Failure? ==> r.error == DataAccess(StoreUnavailable)
      ensures r.Success? ==> r.value == Lookup(rows, userId)
    {
      if !up {
        r := Failure(DataAccess(StoreUnavailable));
      } else {
        r := Success(Lookup(rows, userId));
      }
    }

    /** The login query: the id, the password and the role of the row with that id, through the
        three-argument constructor */
    method FindCredentialsByUserId(userId: Option<string>) returns (r: Result<Option<UserRow>, Exception>)
      ensures r.Success? <==> up
      ensures r.Failure? ==> r.error == DataAccess(StoreUnavailable)
      ensures r.Success? ==> (r.value.Some? <==> Lookup(rows, userId).Some?)
      ensures r.Success? && r.value.Some? ==>
                r.value.value == Credentials(rows[userId.value])
    {
      if !up {
        r := Failure(DataAccess(StoreUnavailable));
      } else {
        match Lookup(rows, userId)
        case None => r := Success(None);
        case Some(row) =>
          r := Success(Some(Credentials(row)));
      }
    }

    /** countByUserId: 1 when a row has that id, else 0 */
    method CountByUserId(userId: Option<string>) returns (r: Result<int, Exception>)
      ensures r.Success? <==> up
      ensures r.Failure? ==> r.error == DataAccess(StoreUnavailable)
      ensures r.Success? ==> (r.value > 0 <==> Lookup(rows, userId).Some?) && 0 <= r.value <= 1
    {
      if !up {
        r := Failure(DataAccess(StoreUnavailable));
      } else if Lookup(rows, userId).Some? {
        r := Success(1);
      } else {
        r := Success(0);
      }
    }

    /** updateUserPasswordById on day `today`: the count of rows changed, 0 or 1 */
    method UpdateUserPasswordById(password: string, userId: Option<string>, today: int)
      returns (r: Result<int, Exception>)
      modifies this`rows
      ensures r.Success? <==> up
      ensures r.Failure? ==> r.error == DataAccess(StoreUnavailable) && rows == old(rows)
      ensures r.Success? ==> r.value == (if Lookup(old(rows), userId).Some? then 1 else 0)
      ensures r.Success? && userId.Some? ==> rows == PasswordUpdated(old(rows), userId.value, password, today)
      ensures userId.None? ==> rows == old(rows)
    {
      if !up {
        r := Failure(DataAccess(StoreUnavailable));
      } else if Lookup(rows, userId).Some? {
        rows := PasswordUpdated(rows, userId.value, password, today);
        r := Success(1);
      } else {
        r := Success(0);
      }
    }

    /** deleteUser on day `today`: the count of rows changed, 0 or 1 */
    method DeleteUser(userId: Option<string>, status: YesNo, isDeleted: int, today: int)
      returns (r: Result<int, Exception>)
      modifies this`rows
      ensures r.Success? <==> up
      ensures r.Failure? ==> r.error == DataAccess(StoreUnavailable) && rows == old(rows)
      ensures r.Success? ==> r.value == (if Lookup(old(rows), userId).Some? then 1 else 0)
      ensures r.Success? && userId.Some? ==>
                rows == WithdrawalApplied(old(rows), userId.value, status, isDeleted, today)
      ensures userId.None? ==> rows == old(rows)
    {
      if !up {
        r := Failure(DataAccess(StoreUnavailable));
      } else if Lookup(rows, userId).Some? {
        rows := WithdrawalApplied(rows, userId.value, status, isDeleted, today);
        r := Success(1);
      } else {
        r := Success(0);
      }
    }

    /** save of a new user: the create hook runs, then the row is inserted unless a column
        constraint refuses it */
    method Insert(u: User, now: int) returns (r: Result<(), Exception>)
      modifies this`rows, u
      ensures !up ==> r == Failure(DataAccess(StoreUnavailable)) && rows == old(rows) && u.row == old(u.row)
      ensures up ==> u.row == Created(old(u.row), now)
      ensures up ==> var s := InsertResult(old(rows), u.row);
                     (r.Success? <==> s.Success?)
                     && (s.Success? ==> rows == s.value)
                     && (s.Failure? ==> r.error == s.error && rows == old(rows))
    {
      if !up {
        r := Failure(DataAccess(StoreUnavailable));
      } else {
        u.OnCreate(now);
        var s := InsertResult(rows, u.row);
        if s.Success? {
          rows := s.value;
          r := Success(());
        } else {
          r := Failure(s.error);
        }
      }
    }

    /** save of a user loaded under `key`: the row is written back, through the update hook when
        it was changed */
    method Update(u: User, key: string, now: int) returns (r: Result<(), Exception>)
      requires key in rows
      modifies this`rows, u
      ensures !up ==> r == Failure(DataAccess(StoreUnavailable)) && rows == old(rows) && u.row == old(u.row)
      ensures up ==> r == Success(()) && u.row == WrittenBack(old(rows[key]), old(u.row), now)
                     && rows == old(rows)[key := u.row]
    {
      if !up {
        r := Failure(DataAccess(StoreUnavailable));
      } else {
        if u.row != rows[key] {
          u.OnUpdate(now);
        }
        rows := rows[key := u.row];
        r := Success(());
      }
    }
  }
}
