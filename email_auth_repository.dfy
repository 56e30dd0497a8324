/** The table of e-mail verification codes and its two queries */
module EmailAuthRepository {

  import opened Wrappers
  import opened Errors
  import opened Enums
  import EmailAuthEntity

  /** One stored row; the e-mail column is unique but may hold null, the code column is not null */
  datatype CodeRecord = CodeRecord(authEmail: Option<string>, authCode: string, authStatus: YesNo)

  /** The integrity failures an insert can hit, and the failure of a query with several results */
  const NULL_CODE: string := "not-null property references a null or transient value : authCode"
  const DUPLICATE_EMAIL: string := "Duplicate entry for key 'auth_email'"
  const NON_UNIQUE: string := "query did not return a unique result"

  /** At most one row per non-null e-mail */
  predicate UniqueEmails(rows: seq<CodeRecord>) {
    forall i, j :: 0 <= i < j < |rows| && rows[i].authEmail.Some? ==> rows[i].authEmail != rows[j].authEmail
  }

  /** No row has been marked as verified */
  predicate AllPending(rows: seq<CodeRecord>) {
    forall i :: 0 <= i < |rows| ==> rows[i].authStatus == N
  }

  predicate EmailTaken(rows: seq<CodeRecord>, email: string) {
    exists i :: 0 <= i < |rows| && rows[i].authEmail == Some(email)
  }

  /** Whether a row answers the derived query on (code, e-mail); a null argument asks for a null
      column */
  predicate Matches(row: CodeRecord, code: Option<string>, email: Option<string>) {
    code == Some(row.authCode) && row.authEmail == email
  }

  /** The rows that answer the query, in table order */
  function Matching(rows: seq<CodeRecord>, code: Option<string>, email: Option<string>): (m: seq<CodeRecord>)
    ensures forall r :: r in m <==> r in rows && Matches(r, code, email)
    ensures |m| <= |rows|
  {
    if rows == [] then []
    else (if Matches(rows[0], code, email) then [rows[0]] else []) + Matching(rows[1..], code, email)
  }

  /** With unique e-mails, a query naming an e-mail has at most one answer */
  lemma {:induction false} MatchingUnique(rows: seq<CodeRecord>, code: Option<string>, email: string)
    requires UniqueEmails(rows)
    ensures |Matching(rows, code, Some(email))| <= 1
  {
    if rows != [] {
      var rest := rows[1..];
      assert UniqueEmails(rest) by {
        forall i, j | 0 <= i < j < |rest| && rest[i].authEmail.Some?
          ensures rest[i].authEmail != rest[j].authEmail
        {
          assert rest[i] == rows[i + 1] && rest[j] == rows[j + 1];
        }
      }
      MatchingUnique(rest, code, email);
      if Matches(rows[0], code, Some(email)) {
        forall r | r in rest ensures !Matches(r, code, Some(email)) {
          var k :| 0 <= k < |rest| && rest[k] == r;
          assert rows[k + 1] == r;
        }
        MatchingNone(rest, code, Some(email));
      }
    }
  }

  /** No answer when no row matches */
  lemma MatchingNone(rows: seq<CodeRecord>, code: Option<string>, email: Option<string>)
    requires forall r :: r in rows ==> !Matches(r, code, email)
    ensures Matching(rows, code, email) == []
  {
  }

  /** The rows after saving a record with the given columns, or the failure the save raises */
  function SaveResult(rows: seq<CodeRecord>, up: bool, email: Option<string>, code: Option<string>,
                      status: YesNo): (r: Result<seq<CodeRecord>, Exception>)
    ensures !up ==> r == Failure(DataAccess(StoreUnavailable))
    ensures up && code.None? ==> r == Failure(DataIntegrityViolation(NULL_CODE))
    ensures up && code.Some? && email.Some? && EmailTaken(rows, email.value) ==>
              r == Failure(DataIntegrityViolation(DUPLICATE_EMAIL))
    ensures r.Success? <==> up && code.Some? && (email.None? || !EmailTaken(rows, email.value))
    ensures r.Success? ==> r.value == rows + [CodeRecord(email, code.value, status)]
  {
    if !up then Failure(DataAccess(StoreUnavailable))
    else if code.None? then Failure(DataIntegrityViolation(NULL_CODE))
    else if email.Some? && EmailTaken(rows, email.value) then Failure(DataIntegrityViolation(DUPLICATE_EMAIL))
    else Success(rows + [CodeRecord(email, code.value, status)])
  }

  /** A save keeps the e-mails unique, and keeps every row pending when it stores a pending row */
  lemma SaveKeepsInvariants(rows: seq<CodeRecord>, up: bool, email: Option<string>, code: Option<string>,
                            status: YesNo)
    requires UniqueEmails(rows)
    requires SaveResult(rows, up, email, code, status).Success?
    ensures UniqueEmails(SaveResult(rows, up, email, code, status).value)
    ensures AllPending(rows) && status == N ==> AllPending(SaveResult(rows, up, email, code, status).value)
  {
    var after := SaveResult(rows, up, email, code, status).value;
    forall i, j | 0 <= i < j < |after| && after[i].authEmail.Some?
      ensures after[i].authEmail != after[j].authEmail
    {
      if j == |rows| {
        assert after[i] == rows[i];
        assert email.Some? ==> !EmailTaken(rows, email.value);
      } else {
        assert after[i] == rows[i] && after[j] == rows[j];
      }
    }
  }

  /** What findByAuthCodeAndAuthEmail gives: the one matching row, nothing, or a failure when
      several rows match */
  function FindResult(rows: seq<CodeRecord>, up: bool, code: Option<string>, email: Option<string>)
    : (r: Result<Option<CodeRecord>, Exception>)
    ensures !up ==> r == Failure(DataAccess(StoreUnavailable))
    ensures r.Success? && r.value.Some? ==> r.value.value in rows && Matches(r.value.value, code, email)
    ensures r.Success? && r.value.None? ==> forall row :: row in rows ==> !Matches(row, code, email)
    ensures r.Failure? && up ==> r.error == DataAccess(NON_UNIQUE)
  {
    if !up then Failure(DataAccess(StoreUnavailable))
    else
      var m := Matching(rows, code, email);
      if |m| == 0 then Success(None)
      else if |m| == 1 then (assert m[0] in m; Success(Some(m[0])))
      else Failure(DataAccess(NON_UNIQUE))
  }

  /** With unique e-mails a query that names an e-mail does not fail on a reachable table */
  lemma FindNamedEmail(rows: seq<CodeRecord>, code: Option<string>, email: string)
    requires UniqueEmails(rows)
    ensures FindResult(rows, true, code, Some(email)).Success?
  {
    MatchingUnique(rows, code, email);
  }

  /** On a reachable table with unique e-mails, the query for an e-mail finds a row exactly when
      a row holds that e-mail and that code */
  lemma FindIffStored(rows: seq<CodeRecord>, code: Option<string>, email: string)
    requires UniqueEmails(rows)
    ensures FindResult(rows, true, code, Some(email)).Success?
    ensures FindResult(rows, true, code, Some(email)).value.Some? <==>
              exists row :: row in rows && Matches(row, code, Some(email))
  {
    FindNamedEmail(rows, code, email);
    var m := Matching(rows, code, Some(email));
    if exists row :: row in rows && Matches(row, code, Some(email)) {
      var row :| row in rows && Matches(row, code, Some(email));
      assert row in m;
    }
  }

  /** The code saved for a new e-mail is found by that code and that e-mail, and a different code
      for the same e-mail finds nothing */
  lemma SavedCodeFound(rows: seq<CodeRecord>, email: string, code: string, other: string)
    requires UniqueEmails(rows)
    requires SaveResult(rows, true, Some(email), Some(code), N).Success?
    requires other != code
    ensures var after := SaveResult(rows, true, Some(email), Some(code), N).value;
            FindResult(after, true, Some(code), Some(email)) == Success(Some(CodeRecord(Some(email), code, N)))
            && FindResult(after, true, Some(other), Some(email)) == Success(None)
  {
    var after := SaveResult(rows, true, Some(email), Some(code), N).value;
    var saved := CodeRecord(Some(email), code, N);
    SaveKeepsInvariants(rows, true, Some(email), Some(code), N);
    FindIffStored(after, Some(code), email);
    assert saved in after && Matches(saved, Some(code), Some(email));
    FindNamedEmail(after, Some(code), email);
    var found := FindResult(after, true, Some(code), Some(email)).value.value;
    assert found == saved by {
      assert !EmailTaken(rows, email);
    }
    FindIffStored(after, Some(other), email);
  }

  class CodeTable {
    var rows: seq<CodeRecord>
    /** Whether the database can be reached */
    var up: bool

    constructor (up: bool)
      ensures rows == [] && this.up == up
    {
      rows := [];
      this.up := up;
    }

    /** save of a new record: the pre-persist hook runs, then the row is inserted unless a column
        constraint refuses it */
    method Save(e: EmailAuthEntity.EmailAuth) returns (r: Result<(), Exception>)
      modifies this`rows, e`authStatus
      ensures e.authStatus == DefaultN(old(e.authStatus))
      ensures var s := SaveResult(old(rows), up, e.authEmail, e.authCode, DefaultN(old(e.authStatus)).value);
              (r.Success? <==> s.Success?)
              && (s.Success? ==> rows == s.value)
              && (s.Failure? ==> r.error == s.error && rows == old(rows))
    {
      e.PrePersist();
      var s := SaveResult(rows, up, e.authEmail, e.authCode, e.authStatus.value);
      if s.Success? {
        rows := s.value;
        r := Success(());
      } else {
        r := Failure(s.error);
      }
    }

    method FindByAuthCodeAndAuthEmail(code: Option<string>, email: Option<string>)
      returns (r: Result<Option<CodeRecord>, Exception>)
      ensures r == FindResult(rows, up, code, email)
    {
      r := FindResult(rows, up, code, email);
    }
  }
}
