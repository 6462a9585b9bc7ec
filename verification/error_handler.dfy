/**
 * `ErrorHandler`: maps a failure to a response that does not reveal whether
 * the account exists, and records a security log entry. The client address
 * is a parameter; how it is read from the request is not part of this model.
 */
module ErrorHandler {
  import opened Base
  import opened Http

  /** The two security-logger calls the handler makes. */
  datatype LogEntry =
    | FailedAuth(ip: string, email: string, reason: string)
    | SuspiciousActivity(ip: string, activity: string)

  datatype Handled = Handled(response: Response, log: seq<LogEntry>)

  /**
   * `${error}` for a thrown plain `Error` (`Error.prototype.toString`): its
   * name alone when the message is empty, otherwise the name, ": " and the
   * message.
   */
  function Describe(f: Failure): (r: string)
    ensures |r| >= 5 && r[..5] == "Error"
    ensures r == "Error" <==> f.Message() == ""
    ensures f.Message() != "" ==> |r| >= 7 && r[5..7] == ": "
  {
    if f.Message() == "" then "Error" else "Error: " + f.Message()
  }

  /** Reads the message back out of a rendered `Error`. */
  function DescribedMessage(rendered: string): string
  {
    if |rendered| <= 7 then "" else rendered[7..]
  }

  /** The rendering keeps the whole message: it can be read back from the log line. */
  lemma DescribeKeepsMessage(f: Failure)
    ensures DescribedMessage(Describe(f)) == f.Message()
  {
  }

  /**
   * `handleAuthError`: user-not-found and authentication errors both give
   * 401 "Invalid credentials" and are logged with their own message when the
   * request carries an identifier; any other error gives 500 and is logged
   * as suspicious.
   */
  function HandleAuthError(f: Failure, ip: string, identifier: Option<string>): (h: Handled)
    ensures WellFormed(h.response) && h.response.link.None?
    ensures !f.Error? <==> h.response.status == 401
    ensures f.Error? <==> h.response.status == 500
    ensures !f.Error? ==> h.response.body == ErrorBody("Unauthorized", "Invalid credentials", 401)
    ensures f.Error? ==> h.response.body == ErrorBody("Internal Server Error", "An unexpected error occurred", 500)
    ensures !f.Error? ==>
              h.log == (if Truthy(identifier) then [FailedAuth(ip, identifier.value, f.Message())] else [])
    ensures f.Error? ==> h.log == [SuspiciousActivity(ip, "Unexpected auth error: " + Describe(f))]
  {
    if !f.Error? then
      var log := if Truthy(identifier) then [FailedAuth(ip, identifier.value, f.Message())] else [];
      Handled(ErrorResponse(401, "Unauthorized", "Invalid credentials"), log)
    else
      Handled(ErrorResponse(500, "Internal Server Error", "An unexpected error occurred"),
              [SuspiciousActivity(ip, "Unexpected auth error: " + Describe(f))])
  }

  /** The one answer to every send-code failure. */
  const EmailSendNotice: string := "If the email exists in our system, a verification code has been sent"

  /**
   * `handleEmailSendError`: every failure gives the same 200 body; only the
   * log entry tells the cases apart.
   */
  function HandleEmailSendError(f: Failure, ip: string, identifier: Option<string>): (h: Handled)
    ensures h.response == Response(200, None,
              MessageBody(EmailSendNotice))
    ensures f.UserNotFound? ==>
              h.log == (if Truthy(identifier)
                        then [FailedAuth(ip, identifier.value, "Email send attempt for non-existent user")]
                        else [])
    ensures f.AuthError? ==>
              h.log == (if Truthy(identifier) then [FailedAuth(ip, identifier.value, f.msg)] else [])
    ensures f.Error? ==> h.log == [SuspiciousActivity(ip, "Email send error: " + Describe(f))]
  {
    var log :=
      match f
      case UserNotFound =>
        if Truthy(identifier) then [FailedAuth(ip, identifier.value, "Email send attempt for non-existent user")] else []
      case AuthError(m) =>
        if Truthy(identifier) then [FailedAuth(ip, identifier.value, m)] else []
      case Error(_) =>
        [SuspiciousActivity(ip, "Email send error: " + Describe(f))];
    Handled(Response(200, None, MessageBody(EmailSendNotice)), log)
  }

  /**
   * The authentication response depends only on whether the failure is an
   * unexpected one: an unknown user and any authentication error, whatever
   * its message, are indistinguishable, and neither the identifier nor the
   * client address shows through.
   */
  lemma AuthResponseHidesAccountState(f1: Failure, f2: Failure, ip1: string, ip2: string, id1: Option<string>, id2: Option<string>)
    requires f1.Error? == f2.Error?
    ensures HandleAuthError(f1, ip1, id1).response == HandleAuthError(f2, ip2, id2).response
  {
  }

  /** The send-code response is the same whatever happened. */
  lemma EmailSendResponseIsConstant(f1: Failure, f2: Failure, ip1: string, ip2: string, id1: Option<string>, id2: Option<string>)
    ensures HandleEmailSendError(f1, ip1, id1).response == HandleEmailSendError(f2, ip2, id2).response
  {
  }

  /** An unexpected error is logged whether or not an identifier is present. */
  lemma UnexpectedErrorsAreAlwaysLogged(f: Failure, ip: string, identifier: Option<string>)
    requires f.Error?
    ensures |HandleAuthError(f, ip, identifier).log| == 1
    ensures |HandleEmailSendError(f, ip, identifier).log| == 1
  {
  }
}
