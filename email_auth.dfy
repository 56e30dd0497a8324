/** The e-mail verification-code record (table `email_auth`) */
module EmailAuthEntity {

  import opened Wrappers
  import opened Enums

  class EmailAuth {
    var authEmail: Option<string>
    var authCode: Option<string>
    var authStatus: Option<YesNo>

    /** The builder with the e-mail and the code set; the status is left null */
    constructor (authEmail: Option<string>, authCode: Option<string>)
      ensures this.authEmail == authEmail && this.authCode == authCode && authStatus.None?
    {
      this.authEmail := authEmail;
      this.authCode := authCode;
      authStatus := None;
    }

    /** prePersist: a null status becomes N; nothing else is touched */
    method PrePersist()
      modifies this`authStatus
      ensures authStatus == DefaultN(old(authStatus))
    {
      if authStatus == None {
        authStatus := Some(N);
      }
    }
  }
}
