/**
 * The auth controller: reads the presented token from the Authorization
 * header, calls the service, and maps its outcome to a response. Unlike
 * `ErrorHandler`, its catch blocks pass authentication messages through and
 * answer 404 for an unknown address on send-code.
 *
 * The handlers take the identifier and the credential as strings: every route
 * puts the enhanced validation middleware in front of the controller, and it
 * only lets requests through that carry both.
 */
module AuthController {
  import opened Base
  import opened Text
  import opened Users
  import opened Crypto
  import opened Strategies
  import opened AuthService
  import opened Http

  const BearerPrefix: string := "Bearer "

  /**
   * `req.headers.authorization?.replace("Bearer ", "")`: the header with the
   * first occurrence of the prefix removed, wherever it is; an absent header
   * stays absent.
   */
  function ExistingToken(authorization: Option<string>): (t: Option<string>)
    ensures t.Some? <==> authorization.Some?
    ensures authorization.Some? && IndexOfFrom(authorization.value, BearerPrefix, 0).None? ==> t == authorization
    ensures authorization.Some? && IndexOfFrom(authorization.value, BearerPrefix, 0).Some? ==>
              |t.value| == |authorization.value| - |BearerPrefix|
    // The first occurrence (as `IndexOfFrom` finds it) is cut out and the text around it kept.
    ensures authorization.Some? && IndexOfFrom(authorization.value, BearerPrefix, 0).Some? ==>
              var h := authorization.value;
              var i := IndexOfFrom(h, BearerPrefix, 0).value;
              t.value == h[..i] + h[i + |BearerPrefix|..]
  {
    match authorization
    case None => None
    case Some(header) => Some(ReplaceFirst(header, BearerPrefix, ""))
  }

  /** A well-formed bearer header yields exactly the token after the prefix. */
  lemma BearerRoundTrip(token: string)
    ensures ExistingToken(Some(BearerPrefix + token)) == Some(token)
  {
    var h := BearerPrefix + token;
    assert h[0..|BearerPrefix|] == BearerPrefix;
    assert IndexOfFrom(h, BearerPrefix, 0) == Some(0);
    assert ReplaceFirst(h, BearerPrefix, "") == h[..0] + "" + h[0 + |BearerPrefix|..];
    assert h[..0] + "" + h[0 + |BearerPrefix|..] == token;
  }

  /** Only the first occurrence is removed: a doubled prefix leaves one behind. */
  lemma DoubledPrefixKeepsOne(token: string)
    ensures ExistingToken(Some(BearerPrefix + BearerPrefix + token)) == Some(BearerPrefix + token)
  {
    var h := BearerPrefix + BearerPrefix + token;
    assert h[0..|BearerPrefix|] == BearerPrefix;
    assert IndexOfFrom(h, BearerPrefix, 0) == Some(0);
    assert ReplaceFirst(h, BearerPrefix, "") == h[..0] + "" + h[0 + |BearerPrefix|..];
    assert h[..0] + "" + h[0 + |BearerPrefix|..] == BearerPrefix + token;
  }

  /** The `Link` header of a successful login. */
  function UserLink(userId: string): string
  {
    "</users/" + userId + ">; rel=\"related\""
  }

  /**
   * The response of the two login handlers: the token alone in the body and
   * the user id only in the `Link` header; an unknown user is 401 "Invalid
   * credentials", an authentication error is 401 with its own message, and
   * anything else is 500.
   */
  function LoginResponse(result: Result<AuthResponse>): (resp: Response)
    ensures WellFormed(resp)
    ensures resp.status == 200 <==> result.Ok?
    ensures resp.status == 401 <==> result.Err? && !result.failure.Error?
    ensures resp.status == 500 <==> result.Err? && result.failure.Error?
    ensures result.Ok? ==> resp.body == TokenBody(result.value.token) && resp.link == Some(UserLink(result.value.userId))
    ensures result.Err? ==> resp.link.None?
    ensures result == Err(UserNotFound) ==> resp.body == ErrorBody("Unauthorized", "Invalid credentials", 401)
    ensures result.Err? && result.failure.AuthError? ==> resp.body == ErrorBody("Unauthorized", result.failure.msg, 401)
    ensures result.Err? && result.failure.Error? ==>
              resp.body == ErrorBody("Internal Server Error", "An unexpected error occurred", 500)
  {
    match result
    case Ok(auth) => Response(200, Some(UserLink(auth.userId)), TokenBody(auth.token))
    case Err(UserNotFound) => ErrorResponse(401, "Unauthorized", "Invalid credentials")
    case Err(AuthError(m)) => ErrorResponse(401, "Unauthorized", m)
    case Err(Error(_)) => ErrorResponse(500, "Internal Server Error", "An unexpected error occurred")
  }

  /** A response together with the repository writes made while producing it. */
  datatype Exchange = Exchange(response: Response, writes: seq<Write>)

  /** `authenticateWithEmail` handler. */
  function AuthenticateWithEmailHandler(
    repo: Repo, identifier: string, code: string, authorization: Option<string>, nowMs: int, deps: Deps
  ): (x: Exchange)
    ensures WellFormed(x.response)
    ensures x.response.status == 200 ==>
              FindByEmail(repo, identifier).Some? && x.response.link == Some(UserLink(NatToString(repo.row.value.id)))
    ensures FindByEmail(repo, identifier).None? ==>
              x == Exchange(ErrorResponse(401, "Unauthorized", "Invalid credentials"), [])
  {
    var run := AuthService.AuthenticateWithEmail(repo, identifier, code, ExistingToken(authorization), nowMs, deps);
    Exchange(LoginResponse(run.result), run.writes)
  }

  /** `authenticateWithPassword` handler. */
  function AuthenticateWithPasswordHandler(
    repo: Repo, identifier: string, password: string, authorization: Option<string>, nowMs: int, deps: Deps
  ): (x: Exchange)
    ensures WellFormed(x.response)
    ensures x.response.status == 200 ==>
              FindByEmail(repo, identifier).Some? && x.response.link == Some(UserLink(NatToString(repo.row.value.id)))
    ensures FindByEmail(repo, identifier).None? ==>
              x == Exchange(ErrorResponse(401, "Unauthorized", "Invalid credentials"), [])
  {
    var run := AuthService.AuthenticateWithPassword(repo, identifier, password, ExistingToken(authorization), nowMs, deps);
    Exchange(LoginResponse(run.result), run.writes)
  }

  /**
   * The response of the send-code handler: 200 on success, 404 for an
   * unknown address, 401 with the message of an authentication error, and
   * 500 for anything else, such as a failed delivery.
   */
  function SendCodeResponse(outcome: Check): (resp: Response)
    ensures WellFormed(resp) && resp.link.None?
    ensures resp.status == 200 <==> outcome.Pass?
    ensures resp.status == 404 <==> outcome == Fail(UserNotFound)
    ensures resp.status == 401 <==> outcome.Fail? && outcome.failure.AuthError?
    ensures resp.status == 500 <==> outcome.Fail? && outcome.failure.Error?
    ensures outcome.Pass? ==> resp.body == MessageBody("Email code sent successfully")
    ensures outcome == Fail(UserNotFound) ==> resp.body == ErrorBody("Not Found", "User not found", 404)
    ensures outcome.Fail? && outcome.failure.AuthError? ==> resp.body == ErrorBody("Unauthorized", outcome.failure.msg, 401)
    ensures outcome.Fail? && outcome.failure.Error? ==>
              resp.body == ErrorBody("Internal Server Error", "Failed to send email code", 500)
  {
    match outcome
    case Pass => Response(200, None, MessageBody("Email code sent successfully"))
    case Fail(UserNotFound) => ErrorResponse(404, "Not Found", "User not found")
    case Fail(AuthError(m)) => ErrorResponse(401, "Unauthorized", m)
    case Fail(Error(_)) => ErrorResponse(500, "Internal Server Error", "Failed to send email code")
  }

  /** A response with the writes made and the codes handed to the transport. */
  datatype SendExchange = SendExchange(response: Response, writes: seq<Write>, sent: seq<SentCode>)

  /** `sendEmailCode` handler. */
  function SendEmailCodeHandler(
    repo: Repo, identifier: string, random: int, nowMs: int, expirationSeconds: int, deliveryError: Option<string>
  ): (x: SendExchange)
    requires CodeRandomMin <= random < CodeRandomMaxExclusive
    ensures WellFormed(x.response)
    ensures x.response.status == 404 <==> FindByEmail(repo, identifier).None?
    ensures x.response.status == 200 ==> |x.sent| == 1 && x.sent[0].to == identifier
  {
    var run := SendEmailAuthCode(repo, identifier, random, nowMs, expirationSeconds, deliveryError);
    SendExchange(SendCodeResponse(run.outcome), run.writes, run.sent)
  }

  // ---------------------------------------------------------------------------
  // What the controller reveals
  // ---------------------------------------------------------------------------

  /**
   * The login handlers tell an unknown address apart from a wrong password
   * for a registered one, although both are 401.
   */
  lemma LoginDistinguishesUnknownFromWrongPassword(
    repo: Repo, known: string, unknown: string, password: string,
    authorization: Option<string>, nowMs: int, deps: Deps
  )
    requires FindByEmail(repo, known).Some? && FindByEmail(repo, unknown).None?
    requires PasswordChecksPass(repo.row.value, deps.maxLoginAttempts)
    requires !deps.comparePassword(password, repo.row.value.passwordHash.value)
    ensures AuthenticateWithPasswordHandler(repo, unknown, password, authorization, nowMs, deps).response.body
            == ErrorBody("Unauthorized", "Invalid credentials", 401)
    ensures AuthenticateWithPasswordHandler(repo, known, password, authorization, nowMs, deps).response.body
            == ErrorBody("Unauthorized", "Invalid password", 401)
  {
  }

  /** A matching but expired code is a server error, not a 401. */
  lemma ExpiredCodeIsServerError(
    repo: Repo, identifier: string, code: string, authorization: Option<string>, nowMs: int, deps: Deps
  )
    requires FindByEmail(repo, identifier).Some?
    requires var u := repo.row.value;
             !u.isBlocked && Truthy(u.emailCode) && u.emailCodeExpiresAt.Some?
             && u.emailCode.value == code && IsEmailCodeExpired(u.emailCodeExpiresAt.value, nowMs)
    ensures var x := AuthenticateWithEmailHandler(repo, identifier, code, authorization, nowMs, deps);
            x.response == ErrorResponse(500, "Internal Server Error", "An unexpected error occurred") && x.writes == []
  {
  }

  /** Send-code tells a registered address from an unknown one. */
  lemma SendCodeRevealsRegistration(
    repo: Repo, known: string, unknown: string, random: int, nowMs: int, expirationSeconds: int
  )
    requires CodeRandomMin <= random < CodeRandomMaxExclusive
    requires FindByEmail(repo, known).Some? && !repo.row.value.isBlocked && FindByEmail(repo, unknown).None?
    ensures SendEmailCodeHandler(repo, known, random, nowMs, expirationSeconds, None).response.status == 200
    ensures SendEmailCodeHandler(repo, unknown, random, nowMs, expirationSeconds, None).response.status == 404
  {
  }

  /**
   * A failed delivery is reported as 500, yet the code was already stored
   * and logs the user in when presented.
   */
  lemma FailedDeliveryStillStoresCode(
    repo: Repo, identifier: string, random: int, nowMs: int, expirationSeconds: int, msg: string,
    authorization: Option<string>, deps: Deps
  )
    requires CodeRandomMin <= random < CodeRandomMaxExclusive
    requires FindByEmail(repo, identifier).Some? && !repo.row.value.isBlocked
    requires expirationSeconds >= 0
    ensures var send := SendEmailCodeHandler(repo, identifier, random, nowMs, expirationSeconds, Some(msg));
            && send.response.status == 500
            && AuthenticateWithEmailHandler(Apply(repo, send.writes), identifier, GenerateEmailCode(random),
                                            authorization, nowMs, deps).response.status == 200
  {
    IssuedCodeAuthenticatesUntilExpiry(repo, identifier, random, nowMs, expirationSeconds,
                                       Some(msg), ExistingToken(authorization), nowMs, deps);
  }
}
