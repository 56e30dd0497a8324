/** The mail sender, as an abstract outbox that may be unreachable */
module EmailService {

  import opened Wrappers
  import opened Errors

  /** The message of the CustomException a failed send raises */
  const SEND_FAILED: string := "Failed to send email"
  const TO_REQUIRED: string := "To address must not be null"
  const TEXT_REQUIRED: string := "Text must not be null"

  class Mailer {
    /** The (recipient, code) pairs sent so far, in order */
    var outbox: seq<(string, string)>
    /** Whether the mail server accepts messages */
    var up: bool

    constructor (up: bool)
      ensures outbox == [] && this.up == up
    {
      outbox := [];
      this.up := up;
    }

    /** sendAuthenticationCodeEmail: a null recipient or text is refused before sending, and a
        transport failure becomes CustomException */
    method SendAuthenticationCodeEmail(email: Option<string>, code: Option<string>)
      returns (r: Result<bool, Exception>)
      modifies this`outbox
      ensures email.None? ==> r == Failure(IllegalArgument(TO_REQUIRED))
      ensures email.Some? && code.None? ==> r == Failure(IllegalArgument(TEXT_REQUIRED))
      ensures email.Some? && code.Some? && !up ==> r == Failure(Custom(SEND_FAILED))
      ensures r.Success? <==> email.Some? && code.Some? && up
      ensures r.Success? ==> r.value && outbox == old(outbox) + [(email.value, code.value)]
      ensures r.Failure? ==> outbox == old(outbox)
    {
      if email.None? {
        r := Failure(IllegalArgument(TO_REQUIRED));
      } else if code.None? {
        r := Failure(IllegalArgument(TEXT_REQUIRED));
      } else if !up {
        r := Failure(Custom(SEND_FAILED));
      } else {
        outbox := outbox + [(email.value, code.value)];
        r := Success(true);
      }
    }
  }
}
