/**
 * The four `UserValidator` checks. Each one only inspects the user and
 * either passes or fails with the error the source throws.
 */
module UserValidator {
  import opened Base
  import opened Users

  /** Default of `getMaxLoginAttempts` when no configuration overrides it. */
  const DefaultMaxLoginAttempts: int := 5

  /** Default of `getEmailCodeExpiration`, in seconds. */
  const DefaultEmailCodeExpirationSeconds: int := 300

  /** `validateUserAccess`: the user must exist and must not be blocked. */
  function ValidateUserAccess(user: Option<User>): (r: Check)
    ensures user.None? ==> r == Fail(UserNotFound)
    ensures user.Some? && user.value.isBlocked ==> r == Fail(AuthError("User is blocked"))
    ensures user.Some? && !user.value.isBlocked ==> r == Pass
  {
    if user.None? then Fail(UserNotFound)
    else if user.value.isBlocked then Fail(AuthError("User is blocked"))
    else Pass
  }

  /** `validatePasswordAttempts`: fails once the counter reaches the maximum. */
  function ValidatePasswordAttempts(user: User, maxAttempts: int): (r: Check)
    ensures r.Pass? <==> user.failedLoginAttempts < maxAttempts
    ensures r.Fail? ==> r.failure == AuthError("Too many failed attempts. User is temporarily blocked")
  {
    if user.failedLoginAttempts >= maxAttempts then
      Fail(AuthError("Too many failed attempts. User is temporarily blocked"))
    else Pass
  }

  /** The user has an active email code: a non-empty code and an expiry. */
  predicate HasActiveCode(user: User)
  {
    Truthy(user.emailCode) && user.emailCodeExpiresAt.Some?
  }

  /**
   * `validateEmailCode`: a missing code or expiry is reported before the
   * code is compared, and the comparison is plain equality.
   */
  function ValidateEmailCode(user: User, code: string): (r: Check)
    ensures !HasActiveCode(user) ==> r == Fail(AuthError("No active email code"))
    ensures HasActiveCode(user) && user.emailCode.value != code ==> r == Fail(AuthError("Invalid email code"))
    ensures r.Pass? <==> HasActiveCode(user) && user.emailCode.value == code
  {
    if !Truthy(user.emailCode) || user.emailCodeExpiresAt.None? then Fail(AuthError("No active email code"))
    else if user.emailCode.value != code then Fail(AuthError("Invalid email code"))
    else Pass
  }

  /** The user has a password configured: both hash and salt are present. */
  predicate HasPassword(user: User)
  {
    Truthy(user.passwordHash) && Truthy(user.passwordSalt)
  }

  /** `validatePassword`: both hash and salt must be present. */
  function ValidatePassword(user: User): (r: Check)
    ensures r.Pass? <==> HasPassword(user)
    ensures r.Fail? ==> r.failure == AuthError("Password not set for this user")
  {
    if !Truthy(user.passwordHash) || !Truthy(user.passwordSalt) then
      Fail(AuthError("Password not set for this user"))
    else Pass
  }

  /** Every validator failure on an existing user is an authentication error. */
  lemma FailuresOnExistingUserAreAuthErrors(user: User, code: string, maxAttempts: int)
    ensures ValidateUserAccess(Some(user)).Fail? ==> ValidateUserAccess(Some(user)).failure.AuthError?
    ensures ValidatePasswordAttempts(user, maxAttempts).Fail? ==> ValidatePasswordAttempts(user, maxAttempts).failure.AuthError?
    ensures ValidateEmailCode(user, code).Fail? ==> ValidateEmailCode(user, code).failure.AuthError?
    ensures ValidatePassword(user).Fail? ==> ValidatePassword(user).failure.AuthError?
  {
  }
}
