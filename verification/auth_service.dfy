/**
 * The authentication facade: the two login operations dispatch to their
 * strategies, and `sendEmailAuthCode` stores a fresh code and hands it to the
 * mail transport. Lemmas here relate operations to one another.
 */
module AuthService {
  import opened Base
  import opened Text
  import opened Users
  import opened UserValidator
  import opened Tokens
  import opened Crypto
  import opened Strategies

  /**
   * `authenticateWithEmail`: the email strategy on the same identifier,
   * code and presented token. A success names the stored user and carries a
   * token recording the email method at this login's second.
   */
  function AuthenticateWithEmail(
    repo: Repo, identifier: string, code: string,
    existingToken: Option<string>, nowMs: int, deps: Deps
  ): (r: Run)
    ensures r.result.Ok? ==>
              FindByEmail(repo, identifier).Some? && r.result.value.userId == NatToString(repo.row.value.id)
    ensures r.result.Ok? && Sound(deps.signer) ==>
              var p := deps.signer.verify(r.result.value.token);
              && p.Claims? && p.exp.Some?
              && p.payload.nbf == TokenTimestamp(nowMs)
              && EmailMethod in p.payload.methods && p.payload.methods[EmailMethod] == TokenTimestamp(nowMs)
    ensures r.result == Err(UserNotFound) <==> FindByEmail(repo, identifier).None?
  {
    AuthenticateEmail(repo, identifier, code, existingToken, nowMs, deps)
  }

  /**
   * `authenticateWithPassword`: the password strategy on the same
   * identifier, password and presented token, with the same guarantees for
   * the password method.
   */
  function AuthenticateWithPassword(
    repo: Repo, identifier: string, password: string,
    existingToken: Option<string>, nowMs: int, deps: Deps
  ): (r: Run)
    ensures r.result.Ok? ==>
              FindByEmail(repo, identifier).Some? && r.result.value.userId == NatToString(repo.row.value.id)
    ensures r.result.Ok? && Sound(deps.signer) ==>
              var p := deps.signer.verify(r.result.value.token);
              && p.Claims? && p.exp.Some?
              && p.payload.nbf == TokenTimestamp(nowMs)
              && PassMethod in p.payload.methods && p.payload.methods[PassMethod] == TokenTimestamp(nowMs)
    ensures r.result == Err(UserNotFound) <==> FindByEmail(repo, identifier).None?
  {
    AuthenticatePassword(repo, identifier, password, existingToken, nowMs, deps)
  }

  /** A code handed to the mail transport. */
  datatype SentCode = SentCode(to: string, code: string)

  /** What `sendEmailAuthCode` returns, the writes it made and what it sent. */
  datatype SendRun = SendRun(outcome: Check, writes: seq<Write>, sent: seq<SentCode>)

  /**
   * `sendEmailAuthCode`: for an existing, unblocked user, generate a code
   * from the drawn `random`, store it with expiry
   * `now + expirationSeconds * 1000`, then send it; `deliveryError` is the
   * message of the error the transport's `sendCode` threw, if it threw.
   */
  function SendEmailAuthCode(
    repo: Repo, identifier: string, random: int, nowMs: int,
    expirationSeconds: int, deliveryError: Option<string>
  ): (r: SendRun)
    requires CodeRandomMin <= random < CodeRandomMaxExclusive
    ensures FindByEmail(repo, identifier).None? ==> r == SendRun(Fail(UserNotFound), [], [])
    ensures FindByEmail(repo, identifier).Some? && repo.row.value.isBlocked ==>
              r == SendRun(Fail(AuthError("User is blocked")), [], [])
    ensures r.sent != [] ==>
              && FindByEmail(repo, identifier).Some? && !repo.row.value.isBlocked
              && |r.writes| == 1 && |r.sent| == 1
              && r.writes[0].UpdateEmailCode? && r.writes[0].email == identifier
              && r.writes[0].expiresAt == nowMs + expirationSeconds * 1000
              && r.sent[0] == SentCode(identifier, r.writes[0].code)
              && |r.sent[0].code| == 6 && AllDigits(r.sent[0].code)
              && (r.outcome.Pass? <==> deliveryError.None?)
              && (deliveryError.Some? ==> r.outcome == Fail(Error(deliveryError.value)))
    ensures r.sent == [] ==> r.writes == [] && r.outcome.Fail?
    // An existing, unblocked user always gets one stored code naming the draw, and that code is sent.
    ensures FindByEmail(repo, identifier).Some? && !repo.row.value.isBlocked ==>
              && |r.sent| == 1 && |r.writes| == 1
              && ParseDecimal(r.sent[0].code) == random
              && r.writes[0].UpdateEmailCode? && r.writes[0].code == r.sent[0].code
              && r.writes[0].expiresAt == nowMs + expirationSeconds * 1000
  {
    var user := FindByEmail(repo, identifier);
    var access := ValidateUserAccess(user);
    if access.Fail? then SendRun(access, [], [])
    else
      var code := GenerateEmailCode(random);
      var expiresAt := nowMs + expirationSeconds * 1000;
      var delivered := if deliveryError.None? then Pass else Fail(Error(deliveryError.value));
      SendRun(delivered, [UpdateEmailCode(identifier, code, expiresAt)], [SentCode(identifier, code)])
  }

  // ---------------------------------------------------------------------------
  // Relations between operations
  // ---------------------------------------------------------------------------

  /**
   * Issuing a code and then presenting it: accepted at any time up to and
   * including the expiry instant, rejected with the plain "Email code
   * expired" error afterwards. The code is stored before it is sent, so this
   * holds even when delivery failed.
   */
  lemma IssuedCodeAuthenticatesUntilExpiry(
    repo: Repo, identifier: string, random: int, nowMs: int, expirationSeconds: int,
    deliveryError: Option<string>, existingToken: Option<string>, loginMs: int, deps: Deps
  )
    requires CodeRandomMin <= random < CodeRandomMaxExclusive
    requires FindByEmail(repo, identifier).Some? && !repo.row.value.isBlocked
    ensures var sent := SendEmailAuthCode(repo, identifier, random, nowMs, expirationSeconds, deliveryError);
            var stored := Apply(repo, sent.writes);
            var login := AuthenticateWithEmail(stored, identifier, GenerateEmailCode(random), existingToken, loginMs, deps);
            && (loginMs <= nowMs + expirationSeconds * 1000 ==> login.result.Ok?)
            && (loginMs > nowMs + expirationSeconds * 1000 ==> login.result == Err(Error("Email code expired")))
  {
    var sent := SendEmailAuthCode(repo, identifier, random, nowMs, expirationSeconds, deliveryError);
    ApplySingle(repo, sent.writes[0]);
  }

  /**
   * A successful email login does not clear the code, so the same code is
   * accepted again at any later time up to its expiry.
   */
  lemma EmailCodeIsReusableUntilExpiry(
    repo: Repo, identifier: string, code: string,
    token1: Option<string>, t1: int, token2: Option<string>, t2: int, deps: Deps
  )
    requires AuthenticateWithEmail(repo, identifier, code, token1, t1, deps).result.Ok?
    requires t2 <= repo.row.value.emailCodeExpiresAt.value
    ensures var first := AuthenticateWithEmail(repo, identifier, code, token1, t1, deps);
            AuthenticateWithEmail(Apply(repo, first.writes), identifier, code, token2, t2, deps).result.Ok?
  {
    var first := AuthenticateWithEmail(repo, identifier, code, token1, t1, deps);
    ApplySingle(repo, first.writes[0]);
  }

  /**
   * The email path ignores the attempt limit and resets the counter, so a
   * user locked out of password login by failed attempts gets back in with
   * the right password after one email login.
   */
  lemma EmailLoginLiftsPasswordLockout(
    repo: Repo, identifier: string, code: string, password: string,
    token1: Option<string>, t1: int, token2: Option<string>, t2: int, deps: Deps
  )
    requires FindByEmail(repo, identifier).Some?
    requires EmailChecksPass(repo.row.value, code, t1)
    requires HasPassword(repo.row.value) && deps.comparePassword(password, repo.row.value.passwordHash.value)
    requires repo.row.value.failedLoginAttempts >= deps.maxLoginAttempts > 0
    ensures AuthenticateWithPassword(repo, identifier, password, token2, t2, deps).result.Err?
    ensures var emailLogin := AuthenticateWithEmail(repo, identifier, code, token1, t1, deps);
            && emailLogin.result.Ok?
            && AuthenticateWithPassword(Apply(repo, emailLogin.writes), identifier, password, token2, t2, deps).result.Ok?
  {
    var emailLogin := AuthenticateWithEmail(repo, identifier, code, token1, t1, deps);
    ApplySingle(repo, emailLogin.writes[0]);
  }

  /**
   * Failed email attempts never count toward the password lockout: whatever
   * code is presented, a failure leaves the row exactly as it was.
   */
  lemma FailedEmailAttemptLeavesRowUnchanged(
    repo: Repo, identifier: string, code: string,
    existingToken: Option<string>, nowMs: int, deps: Deps
  )
    requires AuthenticateWithEmail(repo, identifier, code, existingToken, nowMs, deps).result.Err?
    ensures Apply(repo, AuthenticateWithEmail(repo, identifier, code, existingToken, nowMs, deps).writes) == repo
  {
  }

  /**
   * A presented token that verifies and carries no `exp` claim is extended:
   * the new token keeps its subject and every other method and records the
   * password method. Only a token signed without an expiry has no `exp`.
   */
  lemma LoginExtendsVerifiedToken(
    repo: Repo, identifier: string, password: string,
    existingToken: string, nowMs: int, deps: Deps
  )
    requires Sound(deps.signer)
    requires existingToken != "" && deps.signer.verify(existingToken).Claims?
    requires deps.signer.verify(existingToken).exp.None?
    requires AuthenticateWithPassword(repo, identifier, password, Some(existingToken), nowMs, deps).result.Ok?
    ensures var prior := deps.signer.verify(existingToken).payload;
            var r := AuthenticateWithPassword(repo, identifier, password, Some(existingToken), nowMs, deps);
            var p := deps.signer.verify(r.result.value.token).payload;
            && p.sub == prior.sub
            && p.methods.Keys == prior.methods.Keys + {PassMethod}
            && (forall m :: m in prior.methods && m != PassMethod ==> p.methods[m] == prior.methods[m])
  {
  }

  /**
   * A presented token that is absent, does not verify, or already carries an
   * `exp` claim is dropped: the login still succeeds and the new token records
   * the password method only.
   */
  lemma LoginWithBadTokenIssuesFreshToken(
    repo: Repo, identifier: string, password: string,
    existingToken: Option<string>, nowMs: int, deps: Deps
  )
    requires Sound(deps.signer)
    requires !Truthy(existingToken) || !deps.signer.verify(existingToken.value).Claims?
             || deps.signer.verify(existingToken.value).exp.Some?
    requires AuthenticateWithPassword(repo, identifier, password, None, nowMs, deps).result.Ok?
    ensures var r := AuthenticateWithPassword(repo, identifier, password, existingToken, nowMs, deps);
            && r.result.Ok?
            && VerifiesTo(deps.signer, r.result.value.token,
                          Payload(NatToString(repo.row.value.id), TokenTimestamp(nowMs), map[PassMethod := TokenTimestamp(nowMs)]))
  {
  }

  /**
   * The service's own tokens are never extended. A token from an earlier
   * password login, presented to an email login, is replaced by a token that
   * records the email method only: the earlier method is lost.
   */
  lemma EmailLoginDropsEarlierPasswordMethod(
    repo: Repo, identifier: string, code: string,
    earlier: int, nowMs: int, deps: Deps
  )
    requires Sound(deps.signer)
    requires AuthenticateWithEmail(repo, identifier, code, None, nowMs, deps).result.Ok?
    ensures var prior := deps.signer.sign(CreateTokenPayload(NatToString(repo.row.value.id), PassMethod, earlier));
            var r := AuthenticateWithEmail(repo, identifier, code, Some(prior), nowMs, deps);
            && r.result.Ok?
            && VerifiesTo(deps.signer, r.result.value.token,
                          Payload(NatToString(repo.row.value.id), TokenTimestamp(nowMs), map[EmailMethod := TokenTimestamp(nowMs)]))
            && PassMethod !in deps.signer.verify(r.result.value.token).payload.methods
  {
    var prior := deps.signer.sign(CreateTokenPayload(NatToString(repo.row.value.id), PassMethod, earlier));
    assert VerifiesTo(deps.signer, prior, CreateTokenPayload(NatToString(repo.row.value.id), PassMethod, earlier));
  }
}
