# sol-ms-auth authentication core, in Dafny

A functional model of the authentication microservice's decision logic:

- the two login strategies, by password and by emailed one-time code;
- the user checks they run and the failed-attempt counter they maintain;
- the JWT payload they issue or extend, including the `methods` map of last-authentication times;
- the service that dispatches to them and sends email codes;
- the controller and error handler that turn outcomes into HTTP answers;
- the in-memory rate limiter;
- the four request validation layers (basic, enhanced, hand-written, schema);
- the progressive account-lockout policy;
- the timing-safe comparisons;
- the log-masking helpers.

Every operation is a pure function of its inputs. The current time is a parameter in milliseconds. A login's token timestamp is that time divided by 1000. Exceptions are a closed `Result` datatype: `UserNotFound`, `AuthError(msg)` for `AuthenticationError`, and `Error(msg)` for anything else. The user store holds one row, and each request returns the list of repository writes it would make, as `increment`, `reset` and `updateEmailCode` entries. JavaScript falsy values (`null`, `undefined`, `""`) are all "absent" (`Base.Truthy`).

A JSON request field is one of three `Requests.Field` cases:

- `Missing`;
- a string;
- any other value, given by its truthiness and its `String(v)` text.

That is enough to follow the validators' `!x` and `typeof x !== 'string'` tests exactly.

bcrypt, `jsonwebtoken` and `crypto.randomInt` are parameters:

- a `compare` function;
- a `Signer(sign, verify)` pair. `verify` yields the token's claims: the service's payload plus the `exp` claim the library adds. Its round trip (`Tokens.Sound`: a signed payload verifies back, with an `exp`) is assumed only where a contract says so;
- the random integer itself.

Files follow the program's structure. `base.dfy` holds results and options. `text.dfy` holds the JavaScript string primitives: `trim`, `toLowerCase`, `split`, `join`, `slice`, `replace` and `Number.toString`. Each remaining file models one source file.

## Model

| member | source | states |
|---|---|---|
| AccountLockout.LockoutDuration | src/services/account-lockout.service.ts:19-38 | 0 below five attempts; otherwise the duration paired with the highest threshold reached (5/10/15/20/25 attempts give 5 min/15 min/1 h/6 h/24 h); never above 24 h |
| AccountLockout.CalculateLockoutDuration | src/services/account-lockout.service.ts:19-38 | the scan over the threshold table with its early `break` computes the tiered duration |
| AccountLockout.IsAccountLocked | src/services/account-lockout.service.ts:40-55 | locked only with at least five attempts and a last-attempt time, and only before that time plus 24 h |
| AccountLockout.ShouldBlockUser | src/services/account-lockout.service.ts:57-61 | permanent blocking (50 attempts or more) only happens in the top lockout tier |
| AccountLockout.BlockingStartsAtFifty | src/services/account-lockout.service.ts:57-61 | 49 attempts never block and 50 do; once a count blocks, every higher count blocks |
| AccountLockout.GetRemainingLockoutTime | src/services/account-lockout.service.ts:63-72 | positive exactly while locked, 0 otherwise, equal to the expiry minus now while locked, at most the tier's duration once the last attempt is in the past |
| AccountLockout.DurationMonotone | src/services/account-lockout.service.ts:19-38 | more attempts never shorten the lockout |
| AccountLockout.LockedExactlyBeforeExpiry | src/services/account-lockout.service.ts:51-54 | with five or more attempts, locked iff now is strictly before last attempt + duration; unlocked at the expiry instant |
| AccountLockout.LockIsDownwardClosedInTime | src/services/account-lockout.service.ts:51-54 | locked at a time means locked at every earlier time; once unlocked it stays unlocked |
| AccountLockout.FifthFailureLocksForFiveMinutes | src/services/account-lockout.service.ts:9-17 | four attempts never lock; the fifth locks for exactly five minutes |
| TimingSafe.XorZeroIffEqual | src/services/timing-safe.service.ts:39 | the XOR of two code units is zero iff they are equal |
| TimingSafe.OrZeroIffBothZero | src/services/timing-safe.service.ts:39 | the OR accumulator stays zero iff every XOR was zero |
| TimingSafe.ConstantTimeStringCompare | src/services/timing-safe.service.ts:32-43 | true iff the strings are equal; with equal lengths every index is visited in order (no early exit); unequal lengths visit none |
| TimingSafe.SafeComparePassword | src/services/timing-safe.service.ts:14-21 | a comparison always runs: on the user's hash when the user exists and has one, on the dummy hash otherwise; a missing user is always refused |
| TimingSafe.EmailCodeAccepted | src/services/timing-safe.service.ts:23-30 | acceptance implies the user exists; with a stored code, accepted iff the input equals it |
| TimingSafe.SafeCompareEmailCode | src/services/timing-safe.service.ts:23-30 | the constant-time comparison always runs against the stored code or "000000"; a missing user is refused; a user without a code is accepted iff the input is "000000" |
| TimingSafe.MissingCodeAcceptsDummy | src/services/timing-safe.service.ts:9-29 | an existing user with no stored code is accepted with "000000" |
| TimingSafe.IntendedEmailCodeAccepted | src/services/timing-safe.service.ts:23-30 | corrected decision: accepted iff the user exists, has a stored code and the input equals it |
| TimingSafe.SafeCompareEmailCodeCorrected | src/services/timing-safe.service.ts:23-30 | the corrected comparison: same work as the original, success only against a stored code |
| TimingSafe.CorrectedAgreesWithCodeCheck | src/services/user-validator.service.ts:37-45 | the corrected decision equals the written one except for a user without a code, and equals the strategy's own `validateEmailCode` verdict |
| Users.FindByEmail | src/interfaces/auth.interfaces.ts:5 | a found user is the stored row with that email; otherwise no row has it |
| Users.ApplyWrite | src/interfaces/auth.interfaces.ts:6-8 | one write keeps the row present or absent and never changes its id, email or blocked flag |
| Users.Apply | src/interfaces/auth.interfaces.ts:6-8 | counter and code writes never create or remove the row or change its id and email |
| UserValidator.ValidateUserAccess | src/services/user-validator.service.ts:20-28 | absent user gives `UserNotFound` ("User not found"); blocked gives "User is blocked"; otherwise passes |
| UserValidator.ValidatePasswordAttempts | src/services/user-validator.service.ts:30-35 | fails iff the failed-attempt count reaches the maximum, with the temporary-block message |
| UserValidator.ValidateEmailCode | src/services/user-validator.service.ts:37-45 | missing code or expiry is reported before the comparison; passes iff both are present and the code is equal |
| UserValidator.ValidatePassword | src/services/user-validator.service.ts:47-51 | passes iff both hash and salt are present |
| UserValidator.FailuresOnExistingUserAreAuthErrors | src/services/user-validator.service.ts:3-50 | every failure about an existing user is an `AuthenticationError` |
| Tokens.CreateTokenPayload | src/services/token.service.ts:14-20 | `sub` is the user id, `nbf` and the single `methods` entry are the timestamp, and this is the only such payload |
| Tokens.WithMethod | src/config/jwt.ts:37-40 | `sub` kept, `nbf` set to the timestamp, the method's entry set, every other entry unchanged, keys grow by at most the method |
| Tokens.GenerateToken | src/config/jwt.ts:21-25 | fails iff the object to sign already carries `exp` (jsonwebtoken refuses it alongside `expiresIn`); otherwise the signature of the payload, which a sound signer verifies back to it |
| Tokens.UpdateTokenWithMethod | src/config/jwt.ts:31-44 | every failure is `Error("Invalid token")`; it succeeds iff the token verifies to claims with a `methods` object and no `exp`, and then yields the signature of the merged payload |
| Tokens.SelfIssuedTokenNeverMerges | src/config/jwt.ts:36-43 | with a sound signer, a token the signer issued always fails the update with "Invalid token" |
| Tokens.UpdateTokenWithMethodCorrected | src/config/jwt.ts:31-44 | corrected update: drops the library's `exp` before re-signing; succeeds iff the token verifies to well-shaped claims, and yields a token verifying to the merged payload |
| Tokens.CorrectedUpdateKeepsEarlierMethods | src/config/jwt.ts:36-40 | with the correction, a password token updated by an email login records both methods with their own times |
| Tokens.MergeGrowsByAtMostOne | src/config/jwt.ts:38 | a merge adds at most one method; re-merging a known method adds none |
| Tokens.MergeOverwrites | src/config/jwt.ts:38-39 | merging the same method twice equals merging it once with the later time |
| Tokens.MergePasswordThenEmail | src/config/jwt.ts:36-40 | a password token extended by an email login carries both methods with their own times |
| Tokens.MergeNbfIsLatestOnlyWithMonotoneClock | src/config/jwt.ts:39 | `nbf` is the latest method time only when the clock did not go back; a concrete merge moves it backwards |
| Crypto.NotExpiredAtExpiryInstant | src/utils/crypto.ts:20-22 | a code is still valid at its expiry instant and expired one millisecond later |
| Crypto.ExpiryIsMonotone | src/utils/crypto.ts:20-22 | once expired, a code stays expired |
| Crypto.GenerateEmailCode | src/utils/crypto.ts:16-18 | six decimal digits with no leading zero, reading back as the random value |
| Crypto.NeverIssuesAllNines | src/utils/crypto.ts:16-18 | the exclusive upper bound means "999999" is never issued |
| Strategies.TokenTimestamp | src/strategies/password-auth.strategy.ts:36 | the floor of the millisecond clock in seconds |
| Strategies.IssueToken | src/strategies/password-auth.strategy.ts:37-49 | the token is always the signature of the issued payload: merged when the presented token verifies to claims without `exp`, fresh after any failed update (absent, invalid, unshaped or `exp`-carrying token) |
| Strategies.AuthenticatePassword | src/strategies/password-auth.strategy.ts:19-55 | checks in order (access, password set, attempt limit, comparison), each with its failure and no write; a wrong password makes one increment; success makes one reset and returns the id string and a verifying token |
| Strategies.AuthenticateEmail | src/strategies/email-auth.strategy.ts:18-50 | access, code present and equal, not expired (a plain `Error`); success iff all hold, with one reset and no increment on any path |
| Strategies.PasswordCounterEffect | src/strategies/password-auth.strategy.ts:29-34 | after applying the writes the counter is one higher on a wrong password, 0 on success, unchanged otherwise |
| Strategies.EmailCounterEffect | src/strategies/email-auth.strategy.ts:22-29 | an email login never raises the counter; success zeroes it |
| Strategies.PasswordLockoutIsSticky | src/strategies/password-auth.strategy.ts:25-32 | at or over the maximum every password attempt fails, even the right one, and the row never changes |
| Strategies.WrongPasswordsCountUpToMax | src/strategies/password-auth.strategy.ts:25-32 | a run of wrong passwords raises the counter by one each until the maximum, then stops |
| AuthService.AuthenticateWithEmail | src/services/auth.service.ts:24-34 | success means the user was found and the id string is returned; `UserNotFound` iff no such user; token payload as issued by the strategy |
| AuthService.AuthenticateWithPassword | src/services/auth.service.ts:36-46 | the same for the password strategy |
| AuthService.SendEmailAuthCode | src/services/auth.service.ts:48-59 | unknown or blocked users get their failure with nothing stored or sent; otherwise one six-digit code is stored with expiry now + seconds × 1000, and that same code is sent; a delivery failure is reported after the store |
| AuthService.IssuedCodeAuthenticatesUntilExpiry | src/services/auth.service.ts:53-58 | the code just stored authenticates the same user at any time up to its expiry |
| AuthService.EmailCodeIsReusableUntilExpiry | src/strategies/email-auth.strategy.ts:29-49 | success does not clear the code: it works again until it expires |
| AuthService.EmailLoginLiftsPasswordLockout | src/strategies/email-auth.strategy.ts:22-29 | a password-locked user can log in by email, which resets the counter and re-enables the password login |
| AuthService.FailedEmailAttemptLeavesRowUnchanged | src/strategies/email-auth.strategy.ts:18-50 | a failed email login writes nothing |
| AuthService.LoginExtendsVerifiedToken | src/strategies/password-auth.strategy.ts:39-41 | a presented token that verifies without an `exp` claim is extended: the new token keeps its `sub` and other methods and sets `pass` |
| AuthService.LoginWithBadTokenIssuesFreshToken | src/strategies/password-auth.strategy.ts:42-48 | an absent, unverifiable or `exp`-carrying token never fails a login, and the new token records the password method only |
| AuthService.EmailLoginDropsEarlierPasswordMethod | src/strategies/email-auth.strategy.ts:31-44 | a token from an earlier password login, presented to an email login, is replaced by one recording the email method only |
| ErrorHandler.Describe | src/handlers/error.handler.ts:25 | a plain `Error` renders as its name, alone exactly when the message is empty, otherwise followed by ": " and the message |
| ErrorHandler.DescribeKeepsMessage | src/handlers/error.handler.ts:25 | the message can be read back from the rendered error, so the log line keeps it whole |
| ErrorHandler.HandleAuthError | src/handlers/error.handler.ts:8-33 | user-not-found and authentication errors give the same 401 "Invalid credentials" body, logged only when an identifier is present; anything else gives 500 and is always logged as suspicious |
| ErrorHandler.HandleEmailSendError | src/handlers/error.handler.ts:35-57 | always the same 200 message; the log entry depends on the kind of error and the identifier |
| ErrorHandler.AuthResponseHidesAccountState | src/handlers/error.handler.ts:17-22 | two authentication failures of any kinds get identical responses |
| ErrorHandler.EmailSendResponseIsConstant | src/handlers/error.handler.ts:53-56 | every send failure gets the identical response |
| ErrorHandler.UnexpectedErrorsAreAlwaysLogged | src/handlers/error.handler.ts:24-50 | an unexpected error is logged exactly once whether or not an identifier is present |
| AuthController.ExistingToken | src/controllers/auth.controller.ts:10 | absent header gives no token; otherwise the header with its first "Bearer " removed, unchanged when there is none |
| AuthController.BearerRoundTrip | src/controllers/auth.controller.ts:10 | "Bearer " + token yields the token |
| AuthController.DoubledPrefixKeepsOne | src/controllers/auth.controller.ts:10 | only the first occurrence is removed |
| AuthController.LoginResponse | src/controllers/auth.controller.ts:13-35 | 200 with the token body and the `Link` header iff success; 401 "Invalid credentials" for an unknown user; 401 with the error's own message for an authentication error; 500 otherwise |
| AuthController.AuthenticateWithEmailHandler | src/controllers/auth.controller.ts:5-37 | 200 only with the user's link; an unknown user gets 401 "Invalid credentials" |
| AuthController.AuthenticateWithPasswordHandler | src/controllers/auth.controller.ts:72-104 | the same for password logins |
| AuthController.SendCodeResponse | src/controllers/auth.controller.ts:45-68 | 200 on success, 404 "User not found", 401 with the message, 500 "Failed to send email code", each iff its outcome |
| AuthController.SendEmailCodeHandler | src/controllers/auth.controller.ts:39-70 | 404 iff the address is unknown; 200 means one code was sent to that address |
| AuthController.LoginDistinguishesUnknownFromWrongPassword | src/controllers/auth.controller.ts:83-94 | an unknown address and a wrong password get different 401 bodies |
| AuthController.ExpiredCodeIsServerError | src/controllers/auth.controller.ts:28-35 | a right but expired code is answered with 500 |
| AuthController.SendCodeRevealsRegistration | src/controllers/auth.controller.ts:49-54 | send-code answers 200 for a registered address and 404 for an unknown one |
| AuthController.FailedDeliveryStillStoresCode | src/controllers/auth.controller.ts:61-68 | a failed delivery is answered 500, yet the stored code still authenticates |
| RateLimit.IsAllowed | src/middlewares/rate-limit.middleware.ts:14-30 | outside the window: allowed with a fresh record (1, now + window); inside: refused with the store unchanged at the limit, else counted; other keys never change |
| RateLimit.GetAttempts | src/middlewares/rate-limit.middleware.ts:32-35 | 0 for an unknown key, the count otherwise |
| RateLimit.Reset | src/middlewares/rate-limit.middleware.ts:37-39 | removes exactly its key |
| RateLimit.Cleanup | src/middlewares/rate-limit.middleware.ts:42-49 | keeps exactly the records whose window is still open, unchanged |
| RateLimit.IsAllowedKeepsBounded | src/middlewares/rate-limit.middleware.ts:24-29 | with a limit of at least 1, no count ever exceeds it |
| RateLimit.ZeroLimitStillAllowsFirstCall | src/middlewares/rate-limit.middleware.ts:18-26 | a zero limit still lets the first call of a window through |
| RateLimit.CleanupCommutesWithIsAllowed | src/middlewares/rate-limit.middleware.ts:14-49 | cleaning up first changes neither the verdict nor the key's record |
| RateLimit.ResetStartsFreshWindow | src/middlewares/rate-limit.middleware.ts:37-39 | after a reset the next call is allowed with count 1 |
| RateLimit.WindowAllowsUpToLimit | src/middlewares/rate-limit.middleware.ts:24-29 | inside one window exactly min(calls, limit − count) calls are allowed |
| RateLimit.AtMostLimitPerWindow | src/middlewares/rate-limit.middleware.ts:14-30 | a window opened by a call allows at most the limit in total |
| RateLimit.RetryAfter | src/middlewares/rate-limit.middleware.ts:80 | the window in whole seconds, rounded up |
| RateLimit.AuthLimiter | src/middlewares/rate-limit.middleware.ts:68-87 | proceeds iff the `auth:` key is allowed; otherwise 429 with the fixed message and retry time; the store is the one `isAllowed` left, so a passing call is counted |
| RateLimit.EmailLimiter | src/middlewares/rate-limit.middleware.ts:89-124 | the IP key is checked first and, when it refuses, the address key is not consumed; without an identifier only the IP counts; the raw `identifier` field counts whenever it is truthy, keyed by its string text (so `[]` uses "email:addr:"); with one and a passing IP, proceeds iff the address key is allowed, refuses with the address message otherwise, and leaves the address check's store |
| RateLimit.EmailKeysAreDisjoint | src/middlewares/rate-limit.middleware.ts:95-96 | the IP and address keys never collide |
| RateLimit.RefusedAddressStillCountsAgainstIp | src/middlewares/rate-limit.middleware.ts:98-120 | a request refused for its address has already used one IP attempt |
| Requests.BadRequest | src/middlewares/validation.middleware.ts:7-11 | a 400 "Bad Request" error body repeating the status |
| Requests.BasicEmailShape | src/middlewares/validation.middleware.ts:25 | local@host.suffix with whitespace-free, '@'-free non-empty parts matches the basic pattern |
| Requests.BasicEmailRejections | src/middlewares/validation.middleware.ts:25 | a dotless domain, a second '@' or an empty local part is refused |
| BasicValidation.ValidateEmailAuth | src/middlewares/validation.middleware.ts:3-36 | identifier, then `params.code`, then format, each with its 400 message; passes iff all hold, with the body untouched |
| BasicValidation.ValidatePasswordAuth | src/middlewares/validation.middleware.ts:38-71 | the same with `params.password` |
| BasicValidation.ValidateEmailSend | src/middlewares/validation.middleware.ts:73-97 | identifier and format only |
| BasicValidation.SendAcceptsWhatLoginAccepts | src/middlewares/validation.middleware.ts:73-97 | whatever a login validator accepts, send-code accepts too, and its answer ignores `params` |
| BasicValidation.NonStringIdentifierJudgedByText | src/middlewares/validation.middleware.ts:26 | a truthy non-string identifier is judged on its `String(v)` text |
| EnhancedValidation.NormalizedIsFixed | src/middlewares/enhanced-validation.middleware.ts:10-12 | trimming and lower-casing again leaves a normalised address unchanged |
| EnhancedValidation.SanitizeEmail | src/middlewares/enhanced-validation.middleware.ts:22-40 | non-string or empty input, then format, then length over 254, each with its message; the result is strict, at most 254 long and normalised |
| EnhancedValidation.SanitizeEmailIdempotent | src/middlewares/enhanced-validation.middleware.ts:22-40 | sanitising a sanitised address returns it unchanged |
| EnhancedValidation.SanitizeCode | src/middlewares/enhanced-validation.middleware.ts:42-55 | non-digits removed; exactly six must remain; the result is six digits |
| EnhancedValidation.SanitizeCodeIdempotent | src/middlewares/enhanced-validation.middleware.ts:42-55 | sanitising a sanitised code returns it unchanged |
| EnhancedValidation.SanitizeCodeDropsSeparators | src/middlewares/enhanced-validation.middleware.ts:42-55 | six digits in three groups joined by any non-digit separator (such as "12-34-56") sanitise to the six digits |
| EnhancedValidation.SanitizePassword | src/middlewares/enhanced-validation.middleware.ts:57-69 | accepted iff a non-empty string of 6 to 128 characters, returned unchanged |
| EnhancedValidation.ValidateEmailAuth | src/middlewares/enhanced-validation.middleware.ts:79-118 | identifier, then `params.code`, then email and code sanitisers, each failure a 400 with its message; on success the sanitised values replace the originals |
| EnhancedValidation.ValidatePasswordAuth | src/middlewares/enhanced-validation.middleware.ts:120-159 | the same with the password sanitiser |
| EnhancedValidation.ValidateEmailSend | src/middlewares/enhanced-validation.middleware.ts:161-189 | identifier presence, then the email sanitiser |
| EnhancedValidation.EmailAuthDeliversControllerInputs | src/middlewares/enhanced-validation.middleware.ts:103-110 | a passing body reaches the controller with a strict normalised address and a six-digit code |
| EnhancedValidation.EmailAuthIdempotent | src/middlewares/enhanced-validation.middleware.ts:79-118 | running the middleware on its own output passes and changes nothing |
| EnhancedValidation.PasswordAuthIdempotent | src/middlewares/enhanced-validation.middleware.ts:120-159 | the same for password logins |
| EnhancedValidation.StrictAcceptsSingleLabelDomain | src/middlewares/enhanced-validation.middleware.ts:6 | any allowed local part, "@" and a single label (such as "a@localhost") passes the strict pattern but not the basic one |
| EnhancedValidation.FormatCheckedBeforeLength | src/middlewares/enhanced-validation.middleware.ts:30-37 | an over-long malformed address is reported as a format error |
| ManualValidation.IdentifierErrors | src/types/manual-validation.ts:53-57 | no message iff a non-empty string in basic email form; the "required" message iff not a non-empty string |
| ManualValidation.CodeErrors | src/types/manual-validation.ts:59-67 | no message iff `params` is an object whose code is a six-digit string; otherwise exactly one message, naming the first failed check: params, then the code's presence, then its format |
| ManualValidation.PasswordStringErrors | src/types/manual-validation.ts:100-112 | each of too short, too long and too simple appears iff its condition holds; no message iff complex and at most 128 long |
| ManualValidation.PasswordErrors | src/types/manual-validation.ts:97-113 | no message iff `params` is an object with a complex password of at most 128 characters; a missing `params` or password draws its own single message, and a string password draws exactly the string checks' messages |
| ManualValidation.ValidateEmailAuth | src/types/manual-validation.ts:46-82 | a non-object body gives exactly "Invalid request body"; otherwise identifier and code messages accumulate in order; valid iff none, with both values unchanged |
| ManualValidation.ValidatePasswordAuth | src/types/manual-validation.ts:84-128 | the same for passwords, with up to three messages |
| ManualValidation.ValidateEmailSend | src/types/manual-validation.ts:130-153 | only the identifier is checked |
| ManualValidation.ShortPasswordDrawsTwoMessages | src/types/manual-validation.ts:103-111 | a password under eight characters draws both the length and the complexity message |
| ManualValidation.ErrorsAccumulateInOrder | src/types/manual-validation.ts:53-71 | identifier and params errors are both reported, identifier first |
| ManualValidation.PasswordExamples | src/types/manual-validation.ts:41 | "Password1" is complex; "password1" lacks an uppercase letter |
| SecurityLogging.MaskEmail | src/services/security-logger.service.ts:25-34 | without '@' or with an empty local part or domain, the full mask; otherwise the masked local part, '@', and the text between the first and second '@' |
| SecurityLogging.MaskLocal | src/services/security-logger.service.ts:29-31 | more than two characters keep only their ends around "***"; shorter ones become "***" |
| SecurityLogging.MaskHidesLocalMiddle | src/services/security-logger.service.ts:26-33 | addresses at one domain whose local parts share their ends (or are both short) are logged identically |
| SecurityLogging.MaskDropsAfterSecondAt | src/services/security-logger.service.ts:26-33 | text after a second '@' never reaches the log |
| SecurityLogging.MaskEmailExamples | src/services/security-logger.service.ts:27 | "@example.com" and "jo@" are fully masked |
| SecurityLogging.MaskIpAddress | src/services/typia-security-logger.service.ts:28-45 | loopback and "unknown" unchanged; four dot-parts keep two and end in a dot; else two ':' groups are kept; else "***" |
| SecurityLogging.MaskHidesLastOctets | src/services/typia-security-logger.service.ts:33-36 | a dotted quad shows only its first two parts, so addresses differing in the last two are logged identically |
| SecurityLogging.DottedQuadSplit | src/services/typia-security-logger.service.ts:33 | splitting a.b.c.d on '.' gives its four parts |
| SecurityLogging.ErrorSummary | src/services/typia-security-logger.service.ts:7 | up to three messages are all joined by ", " |
| SecurityLogging.SummaryIgnoresLaterErrors | src/services/typia-security-logger.service.ts:7 | messages after the third never change the summary |
| SecurityLogging.LogValidationError | src/services/typia-security-logger.service.ts:4-9 | the entry names the endpoint, carries the masked client address (loopback addresses and "unknown" unchanged) and the summary of the first three errors, and depends on nothing else |
| SecurityLogging.LoggedAddressHidesLastOctets | src/services/typia-security-logger.service.ts:4-9 | two dotted-quad clients sharing their first two parts leave identical entries, showing only those two parts |
| TypiaValidation.FormatValidationErrors | src/middlewares/typia-validation.middleware.ts:168-190 | a non-array gives ["Validation failed"]; otherwise one line per error: strings unchanged; an error object gives its truthy message (after "path: " when the path is truthy), else "Expected X, got T" when there is an expectation and a defined value, else the fallback text; any other value gives the fallback |
| TypiaValidation.StringErrorsPassThrough | src/middlewares/typia-validation.middleware.ts:173-174 | a list of plain strings is formatted to itself |
| TypiaValidation.MessageWins | src/middlewares/typia-validation.middleware.ts:176-182 | an error object with a message is logged as "path: message" or the message, never the fallback |
| TypiaValidation.NormalizeIdentifier | src/middlewares/typia-validation.middleware.ts:192-218 | lower-casing then trimming equals trimming then lower-casing |
| TypiaValidation.SanitizeEmailAuthRequest | src/middlewares/typia-validation.middleware.ts:192-201 | the code is the first six digits of the input, or all of them when there are fewer (a prefix of the digits with exactly that length); the identifier is normalised |
| TypiaValidation.SanitizePasswordAuthRequest | src/middlewares/typia-validation.middleware.ts:203-212 | the password is cut to its first 128 characters; the length test has no effect |
| TypiaValidation.SanitizeEmailSendRequest | src/middlewares/typia-validation.middleware.ts:214-218 | only the trimmed, lower-cased identifier survives |
| TypiaValidation.ClientIp | src/middlewares/typia-validation.middleware.ts:54 | the request address when truthy, else "unknown" |
| TypiaValidation.Refuse | src/middlewares/typia-validation.middleware.ts:52-64 | the fixed 400 answer; a log entry iff a logger is configured, for the endpoint, with the error summary and the masked client address |
| TypiaValidation.ValidateEmailAuth | src/middlewares/typia-validation.middleware.ts:45-84 | passes iff the hand-written validator accepts, with the sanitised body and no log; otherwise the refusal with its messages |
| TypiaValidation.ValidatePasswordAuth | src/middlewares/typia-validation.middleware.ts:86-125 | the same for password logins |
| TypiaValidation.ValidateEmailSend | src/middlewares/typia-validation.middleware.ts:127-166 | the same for send-code |
| TypiaValidation.RejectionsAreIndistinguishable | src/middlewares/typia-validation.middleware.ts:45-166 | any two rejected requests, on any route, get the same answer |
| TypiaValidation.NormalizeBasicEmail | src/middlewares/typia-validation.middleware.ts:196 | for a basic email, trimming changes nothing, so only lower-casing applies |
| TypiaValidation.EmailAuthKeepsValidatedValues | src/middlewares/typia-validation.middleware.ts:192-201 | an accepted code login reaches the controller with its code untouched and its identifier only lower-cased |
| TypiaValidation.PasswordAuthKeepsValidatedValues | src/middlewares/typia-validation.middleware.ts:203-212 | an accepted password login keeps its password untouched |
| TypiaValidation.EmailAuthIdempotent | src/middlewares/typia-validation.middleware.ts:45-69 | for a lower-case identifier the rewritten body passes again unchanged |
| ValidationLayers.IdentifierChecksAgree | src/types/manual-validation.ts:53-57 | for a string identifier the hand-written check and the basic middleware agree |
| ValidationLayers.NonStringIdentifierSplitsLayers | src/types/manual-validation.ts:53-54 | a truthy non-string identifier is refused by the hand-written check but accepted by the basic middleware |
| ValidationLayers.SixDigitCodeSurvivesSanitizer | src/middlewares/enhanced-validation.middleware.ts:42-55 | a code the hand-written validator accepts is its own sanitised form |
| ValidationLayers.ValidPasswordSurvivesSanitizer | src/middlewares/enhanced-validation.middleware.ts:57-69 | a password the hand-written validator accepts passes the enhanced rule unchanged |
| ValidationLayers.ShortPasswordSplitsLayers | src/types/manual-validation.ts:103-105 | six or seven characters pass the enhanced rule but draw the hand-written too-short message |
| Text.JoinSplit | src/services/security-logger.service.ts:26 | joining the pieces of a split with the separator gives back the string |
| Text.SplitLength | src/services/typia-security-logger.service.ts:33-41 | a split yields one more piece than there are separators |
| Text.TrimLowerCommute | src/middlewares/enhanced-validation.middleware.ts:10-12 | trimming and ASCII lower-casing commute |
| Text.DigitsOnlyAppend | src/middlewares/enhanced-validation.middleware.ts:48 | removing non-digits from a concatenation removes them from each part |
| Text.DigitsOnlyIdempotent | src/middlewares/enhanced-validation.middleware.ts:48 | removing non-digits twice equals once |
| Text.ParseNatToString | src/controllers/auth.controller.ts:13 | the decimal rendering of a user id reads back as the id |
| Text.NatToStringInjective | src/controllers/auth.controller.ts:13 | distinct ids give distinct `Link` targets |

## Left out

- Express plumbing: the request and response objects, `next` and route wiring. Each handler is the decision it makes.
- `getClientIP`: the client address is a parameter.
- The clock is a parameter. `isAccountLocked` and `getRemainingLockoutTime` read it separately; here both see one value. Likewise `RateLimit.EmailLimiter` gives its two `isAllowed` calls (client address, then address) one `now`, though each reads `Date.now()` itself.
- The rate limiter's cleanup timer is not modelled.
- bcrypt, `jsonwebtoken` and `crypto.randomInt` are foreign libraries. They appear as a comparison function, a signer pair and the random integer. Of the registered claims only the presence of `exp` is modelled: its value, `iat`, and the time checks inside `jwt.verify` are not.
- Tokens.UpdateTokenWithMethod: a verified payload whose `methods` is not an object throws at the merge; the model has one `Unshaped` case for it. Every other claim is taken to have its declared type.
- Email transport is not modelled: `sendCode` is an optional delivery error. The repository's write implementations are not part of this model. They are assumed to increment by one, reset to zero, and set the code and expiry of the row with that address. The repository's `findByEmail`, which the adapter calls, is not in the source either: `Users.FindByEmail` assumes an exact, case-sensitive match on `email`, and every "user not found" contract rests on that assumption.
- `TimingSafeService` and `AccountLockoutService` are standalone. The service factory does not wire either into the strategies, so nothing else in the model calls them.
- Wall-clock timing is not modelled. "No early exit" is stated as the ghost list of visited indices.
- `toLowerCase` lowers ASCII letters only. Lengths count Dafny characters, not UTF-16 code units, so the two differ only outside the Basic Multilingual Plane.
- The schema validators generated at build time are not part of this model. In production they replace the hand-written ones; the middleware is modelled in its development configuration.
- The middleware's `catch` path and `sanitizeErrorsForLogging` are not modelled.
- Console output, log timestamps and the text of log lines are not modelled. Logs are the structured entries the handlers would write.
- The controllers assume the enhanced validation runs in front of them. A body without `params` would raise a `TypeError` there, and a 500 answer, which is not modelled.
- TypiaValidation.FormatValidationErrors: a truthy non-string `message` is returned as-is by the source. Here it is its `String(v)` text.
- SecurityLogging.MaskIpAddress: the example "192.168.1.20" is stated through MaskHidesLastOctets on its parts, not on the literal.
- Strategies.AuthenticatePassword: follows the strategy as written. Unknown users are `UserNotFound`, not "Invalid credentials". The counter is incremented only after a failed comparison. The strategy takes four collaborators, not the five its tests construct.
- AuthController.LoginResponse: follows the controller as written. It passes an authentication error's own message ("Invalid password", "User is blocked") to the client, though the error handler's design hides it. `ErrorHandler.HandleAuthError` models that generic handler separately.
- Tokens.WithMethod: `nbf` is set to the login time even when older method entries are later, so it is not always the maximum.
- EnhancedValidation.SanitizeEmail: the strict pattern accepts single-label domains such as "a@localhost", which the basic pattern refuses.

## Findings

| source | as written | input that shows it | evidently intended | confidence | as-written member | corrected member |
|---|---|---|---|---|---|---|
| src/services/timing-safe.service.ts:25-29 | the dummy code "000000" stands in for a missing stored code, and success only requires the user to exist and the comparison to succeed | an existing user with no stored code, input "000000": accepted | refuse when there is no stored code, as the comment "false if … code is invalid" and `validateEmailCode` do | not executed | TimingSafe.MissingCodeAcceptsDummy | TimingSafe.SafeCompareEmailCodeCorrected |
| src/config/jwt.ts:36-43 | the verified claims, which include the `exp` that `generateToken` itself added, are re-signed with `expiresIn`, and jsonwebtoken refuses that, so the catch reports "Invalid token" | a token from a password login presented to the email login: the new token records `email` only | drop the library claims before re-signing, so the earlier method survives | not executed | Tokens.SelfIssuedTokenNeverMerges | Tokens.UpdateTokenWithMethodCorrected |
