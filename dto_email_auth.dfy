/** The web-layer copy of the e-mail verification-code record; here the code may be null */
module WebDtoEmailAuth {

  import opened Wrappers
  import opened Enums

  class EmailAuth {
    var authEmail: Option<string>
    var authCode: Option<string>
    var authStatus: Option<YesNo>

    constructor (authEmail: Option<string>, authCode: Option<string>, authStatus: Option<YesNo>)
      ensures this.authEmail == authEmail && this.authCode == authCode && this.authStatus == authStatus
    {
      this.authEmail := authEmail;
      this.authCode := authCode;
      this.authStatus := authStatus;
    }

    /** prePersist: a null status becomes N; nothing else is touched */
    method PrePersist()
      modifies this`authStatus
      ensures authStatus == DefaultN(old(authStatus))
    {
      if authStatus == None {
        authStatus := Some(N);
      }
    }
  }
}
