/**
 * The two credential strategies. Each looks the user up, runs the
 * validators in a fixed order, writes the failed-attempt counter, and on
 * success issues a token: a merge into the presented token when that token
 * verifies, a fresh single-method token otherwise.
 */
module Strategies {
  import opened Base
  import opened Text
  import opened Users
  import opened UserValidator
  import opened Tokens
  import opened Crypto

  const PassMethod: string := "pass"
  const EmailMethod: string := "email"

  /** `AuthResponse`: the token and the user id as a decimal string. */
  datatype AuthResponse = AuthResponse(token: string, userId: string)

  /** What one strategy run returns and the repository writes it made, in order. */
  datatype Run = Run(result: Result<AuthResponse>, writes: seq<Write>)

  /**
   * The strategies' collaborators: the bcrypt comparison, the token
   * signer and the configured maximum of failed password attempts.
   */
  datatype Deps = Deps(comparePassword: (string, string) -> bool, signer: Signer, maxLoginAttempts: int)

  /** `Math.floor(Date.now() / 1000)`: whole seconds of a millisecond clock. */
  function TokenTimestamp(nowMs: int): (t: int)
    ensures t * 1000 <= nowMs < t * 1000 + 1000
  {
    nowMs / 1000
  }

  /**
   * The payload a successful login's token carries: the presented token's
   * payload with the method merged in when the token is present, verifies and
   * carries no `exp` claim of its own, a fresh payload for the user otherwise.
   */
  function IssuedPayload(signer: Signer, existingToken: Option<string>, userId: string, authMethod: string, timestamp: int)
    : Payload
  {
    if Truthy(existingToken) && signer.verify(existingToken.value).Claims?
       && signer.verify(existingToken.value).exp.None? then
      WithMethod(signer.verify(existingToken.value).payload, authMethod, timestamp)
    else
      CreateTokenPayload(userId, authMethod, timestamp)
  }

  /**
   * Token choice shared by both strategies: try `updateTokenWithMethod` on a
   * present token and fall back to a fresh token when it throws, so a bad
   * token never fails an otherwise successful login. The token is always
   * the signature of the issued payload.
   */
  function IssueToken(signer: Signer, existingToken: Option<string>, userId: string, authMethod: string, timestamp: int)
    : (token: string)
    ensures token == signer.sign(IssuedPayload(signer, existingToken, userId, authMethod, timestamp))
    ensures Sound(signer) ==> VerifiesTo(signer, token, IssuedPayload(signer, existingToken, userId, authMethod, timestamp))
  {
    var single := GenerateToken(signer, CreateTokenPayload(userId, authMethod, timestamp), None);
    if Truthy(existingToken) then
      match UpdateTokenWithMethod(signer, existingToken.value, authMethod, timestamp)
      case Ok(merged) => merged
      case Err(_) => single.value
    else
      single.value
  }

  /** The checks that precede the password comparison all pass. */
  predicate PasswordChecksPass(u: User, maxAttempts: int)
  {
    !u.isBlocked && HasPassword(u) && u.failedLoginAttempts < maxAttempts
  }

  /**
   * `PasswordAuthStrategy.authenticate`: access, password-set and attempt
   * checks in that order, all before the comparison; a wrong password
   * increments the counter, a right one resets it.
   */
  function AuthenticatePassword(
    repo: Repo, identifier: string, password: string,
    existingToken: Option<string>, nowMs: int, deps: Deps
  ): (r: Run)
    // An unknown identifier surfaces as the validator's UserNotFound, with no write.
    ensures FindByEmail(repo, identifier).None? ==> r == Run(Err(UserNotFound), [])
    // Check order: blocked, then password not set, then too many attempts.
    ensures FindByEmail(repo, identifier).Some? && repo.row.value.isBlocked ==>
              r == Run(Err(AuthError("User is blocked")), [])
    ensures FindByEmail(repo, identifier).Some? && !repo.row.value.isBlocked && !HasPassword(repo.row.value) ==>
              r == Run(Err(AuthError("Password not set for this user")), [])
    ensures FindByEmail(repo, identifier).Some? && !repo.row.value.isBlocked && HasPassword(repo.row.value)
            && repo.row.value.failedLoginAttempts >= deps.maxLoginAttempts ==>
              r == Run(Err(AuthError("Too many failed attempts. User is temporarily blocked")), [])
    // Once every check passes, the comparison decides and exactly one write follows.
    ensures FindByEmail(repo, identifier).Some? && PasswordChecksPass(repo.row.value, deps.maxLoginAttempts) ==>
              var u := repo.row.value;
              if deps.comparePassword(password, u.passwordHash.value) then
                r.writes == [ResetFailedAttempts(u.id)] && r.result.Ok? && r.result.value.userId == NatToString(u.id)
              else
                r == Run(Err(AuthError("Invalid password")), [IncrementFailedAttempts(u.id)])
    ensures r.result.Ok? ==>
              r.result.value.token
              == deps.signer.sign(IssuedPayload(deps.signer, existingToken, r.result.value.userId, PassMethod, TokenTimestamp(nowMs)))
  {
    var user := FindByEmail(repo, identifier);
    var access := ValidateUserAccess(user);
    if access.Fail? then Run(Err(access.failure), [])
    else
      var u := user.value;
      var passwordSet := ValidatePassword(u);
      if passwordSet.Fail? then Run(Err(passwordSet.failure), [])
      else
        var attemptsLeft := ValidatePasswordAttempts(u, deps.maxLoginAttempts);
        if attemptsLeft.Fail? then Run(Err(attemptsLeft.failure), [])
        else if !deps.comparePassword(password, u.passwordHash.value) then
          Run(Err(AuthError("Invalid password")), [IncrementFailedAttempts(u.id)])
        else
          var userId := NatToString(u.id);
          var token := IssueToken(deps.signer, existingToken, userId, PassMethod, TokenTimestamp(nowMs));
          Run(Ok(AuthResponse(token, userId)), [ResetFailedAttempts(u.id)])
  }

  /** The checks of the email strategy all pass at time `nowMs`. */
  predicate EmailChecksPass(u: User, code: string, nowMs: int)
  {
    && !u.isBlocked
    && HasActiveCode(u)
    && u.emailCode.value == code
    && !IsEmailCodeExpired(u.emailCodeExpiresAt.value, nowMs)
  }

  /**
   * `EmailAuthStrategy.authenticate`: access, then code present and equal,
   * then expiry; there is no attempt-limit check and no increment, and the
   * code is not cleared on success.
   */
  function AuthenticateEmail(
    repo: Repo, identifier: string, code: string,
    existingToken: Option<string>, nowMs: int, deps: Deps
  ): (r: Run)
    ensures FindByEmail(repo, identifier).None? ==> r == Run(Err(UserNotFound), [])
    ensures FindByEmail(repo, identifier).Some? && repo.row.value.isBlocked ==>
              r == Run(Err(AuthError("User is blocked")), [])
    ensures FindByEmail(repo, identifier).Some? && !repo.row.value.isBlocked && !HasActiveCode(repo.row.value) ==>
              r == Run(Err(AuthError("No active email code")), [])
    ensures FindByEmail(repo, identifier).Some? && !repo.row.value.isBlocked && HasActiveCode(repo.row.value)
            && repo.row.value.emailCode.value != code ==>
              r == Run(Err(AuthError("Invalid email code")), [])
    // A matching but expired code is a plain Error, not an authentication error.
    ensures FindByEmail(repo, identifier).Some? && !repo.row.value.isBlocked && HasActiveCode(repo.row.value)
            && repo.row.value.emailCode.value == code
            && IsEmailCodeExpired(repo.row.value.emailCodeExpiresAt.value, nowMs) ==>
              r == Run(Err(Error("Email code expired")), [])
    ensures r.result.Ok? <==> FindByEmail(repo, identifier).Some? && EmailChecksPass(repo.row.value, code, nowMs)
    ensures r.result.Ok? ==>
              r.writes == [ResetFailedAttempts(repo.row.value.id)] && r.result.value.userId == NatToString(repo.row.value.id)
    ensures r.result.Err? ==> r.writes == []
    ensures r.result.Ok? ==>
              r.result.value.token
              == deps.signer.sign(IssuedPayload(deps.signer, existingToken, r.result.value.userId, EmailMethod, TokenTimestamp(nowMs)))
  {
    var user := FindByEmail(repo, identifier);
    var access := ValidateUserAccess(user);
    if access.Fail? then Run(Err(access.failure), [])
    else
      var u := user.value;
      var codeCheck := ValidateEmailCode(u, code);
      if codeCheck.Fail? then Run(Err(codeCheck.failure), [])
      else if IsEmailCodeExpired(u.emailCodeExpiresAt.value, nowMs) then
        Run(Err(Error("Email code expired")), [])
      else
        var userId := NatToString(u.id);
        var token := IssueToken(deps.signer, existingToken, userId, EmailMethod, TokenTimestamp(nowMs));
        Run(Ok(AuthResponse(token, userId)), [ResetFailedAttempts(u.id)])
  }

  // ---------------------------------------------------------------------------
  // Effect of a run on the stored counter
  // ---------------------------------------------------------------------------

  /**
   * After a password attempt on an existing user the counter is one higher
   * after a wrong password, zero after success, and unchanged when a check
   * failed before the comparison.
   */
  lemma PasswordCounterEffect(
    repo: Repo, identifier: string, password: string,
    existingToken: Option<string>, nowMs: int, deps: Deps
  )
    requires FindByEmail(repo, identifier).Some?
    ensures var r := AuthenticatePassword(repo, identifier, password, existingToken, nowMs, deps);
            var before := repo.row.value.failedLoginAttempts;
            var after := Apply(repo, r.writes).row.value.failedLoginAttempts;
            && (r.result.Ok? ==> after == 0)
            && (r.result == Err(AuthError("Invalid password")) ==> after == before + 1)
            && (r.writes == [] ==> after == before)
  {
    var r := AuthenticatePassword(repo, identifier, password, existingToken, nowMs, deps);
    if r.writes != [] {
      ApplySingle(repo, r.writes[0]);
    }
  }

  /** An email attempt never raises the counter: it is reset or left alone. */
  lemma EmailCounterEffect(
    repo: Repo, identifier: string, code: string,
    existingToken: Option<string>, nowMs: int, deps: Deps
  )
    requires FindByEmail(repo, identifier).Some?
    ensures var r := AuthenticateEmail(repo, identifier, code, existingToken, nowMs, deps);
            var after := Apply(repo, r.writes).row.value;
            && (r.result.Ok? ==> after == repo.row.value.(failedLoginAttempts := 0))
            && (r.result.Err? ==> after == repo.row.value)
  {
    var r := AuthenticateEmail(repo, identifier, code, existingToken, nowMs, deps);
    if r.writes != [] {
      ApplySingle(repo, r.writes[0]);
    }
  }

  // ---------------------------------------------------------------------------
  // Repeated password attempts
  // ---------------------------------------------------------------------------

  /** One password attempt as presented by a client. */
  datatype PasswordAttempt = PasswordAttempt(password: string, existingToken: Option<string>, nowMs: int)

  /** Run password attempts one after another, each on the row the previous one left. */
  function ReplayPassword(repo: Repo, identifier: string, attempts: seq<PasswordAttempt>, deps: Deps)
    : (final: Repo)
    decreases |attempts|
  {
    if attempts == [] then repo
    else
      var a := attempts[0];
      var r := AuthenticatePassword(repo, identifier, a.password, a.existingToken, a.nowMs, deps);
      ReplayPassword(Apply(repo, r.writes), identifier, attempts[1..], deps)
  }

  /**
   * Once the counter reaches the maximum, no password attempt succeeds, even
   * with the right password, and none changes the row: only another path
   * (an email login) can clear the counter.
   */
  lemma {:induction false} PasswordLockoutIsSticky(repo: Repo, identifier: string, attempts: seq<PasswordAttempt>, deps: Deps)
    requires FindByEmail(repo, identifier).Some?
    requires repo.row.value.failedLoginAttempts >= deps.maxLoginAttempts
    ensures forall i :: 0 <= i < |attempts| ==>
              AuthenticatePassword(repo, identifier, attempts[i].password, attempts[i].existingToken, attempts[i].nowMs, deps).result.Err?
    ensures ReplayPassword(repo, identifier, attempts, deps) == repo
    decreases |attempts|
  {
    if attempts != [] {
      var a := attempts[0];
      var r := AuthenticatePassword(repo, identifier, a.password, a.existingToken, a.nowMs, deps);
      assert r.writes == [];
      assert Apply(repo, r.writes) == repo;
      PasswordLockoutIsSticky(repo, identifier, attempts[1..], deps);
      assert forall i :: 1 <= i < |attempts| ==> attempts[i] == attempts[1..][i - 1];
    }
  }

  /**
   * Wrong passwords raise the counter by one each until it reaches the
   * maximum: starting below it, `k` wrong attempts leave `min(start + k, max)`.
   */
  lemma {:induction false} WrongPasswordsCountUpToMax(repo: Repo, identifier: string, attempts: seq<PasswordAttempt>, deps: Deps)
    requires FindByEmail(repo, identifier).Some?
    requires !repo.row.value.isBlocked && HasPassword(repo.row.value)
    requires 0 <= repo.row.value.failedLoginAttempts <= deps.maxLoginAttempts
    requires forall i :: 0 <= i < |attempts| ==>
               !deps.comparePassword(attempts[i].password, repo.row.value.passwordHash.value)
    ensures var final := ReplayPassword(repo, identifier, attempts, deps);
            var start := repo.row.value.failedLoginAttempts;
            && final.row.Some?
            && final.row.value == repo.row.value.(failedLoginAttempts :=
                 if start + |attempts| <= deps.maxLoginAttempts then start + |attempts| else deps.maxLoginAttempts)
    decreases |attempts|
  {
    if attempts != [] {
      var a := attempts[0];
      var r := AuthenticatePassword(repo, identifier, a.password, a.existingToken, a.nowMs, deps);
      var next := Apply(repo, r.writes);
      if repo.row.value.failedLoginAttempts < deps.maxLoginAttempts {
        assert r.writes == [IncrementFailedAttempts(repo.row.value.id)];
        ApplySingle(repo, r.writes[0]);
      } else {
        assert r.writes == [];
      }
      assert forall i :: 0 <= i < |attempts[1..]| ==> attempts[1..][i] == attempts[i + 1];
      WrongPasswordsCountUpToMax(next, identifier, attempts[1..], deps);
    }
  }
}
