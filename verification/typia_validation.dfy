/**
 * The schema-validation middleware. In development it runs the hand-written
 * validators; every failure gets one and the same 400 answer, while the
 * messages go, summarised and with the client address masked, to the
 * optional security logger. A request that passes is rewritten: the
 * identifier lower-cased and trimmed, the code cut to its digits, the
 * password to 128 characters.
 */
module TypiaValidation {
  import opened Base
  import opened Text
  import opened Http
  import opened Requests
  import ManualValidation
  import opened SecurityLogging

  // ---------------------------------------------------------------------------
  // formatValidationErrors
  // ---------------------------------------------------------------------------

  /**
   * One element of a validator's error list: a string, an object with
   * `path`, `message`, `expected` and `value` members (the last given by its
   * `typeof`, or None when it is undefined), or any other value.
   */
  datatype RawError =
    | StringError(s: string)
    | ErrorObject(path: Field, message: Field, expected: Field, valueType: Option<string>)
    | OtherError

  const FallbackMessage: string := "Unknown validation error"

  /**
   * One error as a log line: "path: message" when both are truthy, else the
   * message, else "Expected X, got T" when there is an expectation and a
   * defined value, else the fallback text.
   */
  function FormatError(e: RawError): string
  {
    match e
    case StringError(s) => s
    case ErrorObject(path, message, expected, valueType) =>
      if Present(path) && Present(message) then Coerce(path) + ": " + Coerce(message)
      else if Present(message) then Coerce(message)
      else if Present(expected) && valueType.Some? then "Expected " + Coerce(expected) + ", got " + valueType.value
      else FallbackMessage
    case OtherError => FallbackMessage
  }

  /** `formatValidationErrors`: None stands for a value that is not an array. */
  function FormatValidationErrors(errors: Option<seq<RawError>>): (r: seq<string>)
    ensures errors.None? ==> r == ["Validation failed"]
    ensures errors.Some? ==> |r| == |errors.value|
    ensures errors.Some? ==>
              forall i :: 0 <= i < |r| && errors.value[i].StringError? ==> r[i] == errors.value[i].s
    // Error objects: a truthy message wins (prefixed by a truthy path), then the expectation, then the fallback.
    ensures errors.Some? ==>
              forall i :: 0 <= i < |r| && errors.value[i].ErrorObject? && Present(errors.value[i].message) ==>
                r[i] == (if Present(errors.value[i].path) then Coerce(errors.value[i].path) + ": " else "")
                        + Coerce(errors.value[i].message)
    ensures errors.Some? ==>
              forall i :: 0 <= i < |r| && errors.value[i].ErrorObject? && !Present(errors.value[i].message)
                          && Present(errors.value[i].expected) && errors.value[i].valueType.Some? ==>
                r[i] == "Expected " + Coerce(errors.value[i].expected) + ", got " + errors.value[i].valueType.value
    ensures errors.Some? ==>
              forall i :: 0 <= i < |r| && errors.value[i].ErrorObject? && !Present(errors.value[i].message)
                          && !(Present(errors.value[i].expected) && errors.value[i].valueType.Some?) ==>
                r[i] == FallbackMessage
    ensures errors.Some? ==> forall i :: 0 <= i < |r| && errors.value[i].OtherError? ==> r[i] == FallbackMessage
  {
    match errors
    case None => ["Validation failed"]
    case Some(es) => seq(|es|, i requires 0 <= i < |es| => FormatError(es[i]))
  }

  /** The hand-written validators report plain strings, which reach the log unchanged. */
  lemma StringErrorsPassThrough(messages: seq<string>)
    ensures FormatValidationErrors(Some(seq(|messages|, i requires 0 <= i < |messages| => StringError(messages[i]))))
            == messages
  {
  }

  /** An error object with a truthy message never falls back to the generic text. */
  lemma MessageWins(path: Field, message: Field, expected: Field, valueType: Option<string>)
    requires Present(message)
    ensures var line := FormatError(ErrorObject(path, message, expected, valueType));
            line == (if Present(path) then Coerce(path) + ": " else "") + Coerce(message)
  {
  }

  // ---------------------------------------------------------------------------
  // Sanitisers
  // ---------------------------------------------------------------------------

  /** `identifier.toLowerCase().trim()`. */
  function NormalizeIdentifier(identifier: string): (r: string)
    ensures r == ToLower(Trim(identifier))
  {
    TrimLowerCommute(identifier);
    Trim(ToLower(identifier))
  }

  /** `sanitizeEmailAuthRequest`: both branches of its length test keep the first six digits. */
  function SanitizeEmailAuthRequest(data: ManualValidation.EmailAuthRequest): (b: RequestBody)
    ensures b.identifier == Str(NormalizeIdentifier(data.identifier))
    ensures b.params.ParamObject? && b.params.password == Missing && b.params.code.Str?
    ensures |b.params.code.s| <= 6 && AllDigits(b.params.code.s)
    ensures |DigitsOnly(data.code)| >= 6 ==> |b.params.code.s| == 6
    // The kept code is the leading part of the input's digits, so with the lengths above it is the first six.
    ensures b.params.code.s <= DigitsOnly(data.code)
    ensures |b.params.code.s| == if |DigitsOnly(data.code)| < 6 then |DigitsOnly(data.code)| else 6
  {
    var digits := DigitsOnly(data.code);
    var code := if |digits| == 6 then digits else Take(digits, 6);
    RequestBody(Str(NormalizeIdentifier(data.identifier)), ParamObject(Str(code), Missing))
  }

  /** `sanitizePasswordAuthRequest`: both branches of its length test keep the first 128 characters. */
  function SanitizePasswordAuthRequest(data: ManualValidation.PasswordAuthRequest): (b: RequestBody)
    ensures var kept := if |data.password| <= 128 then data.password else data.password[..128];
            b == RequestBody(Str(NormalizeIdentifier(data.identifier)), ParamObject(Missing, Str(kept)))
  {
    var password := Take(data.password, 128);
    RequestBody(Str(NormalizeIdentifier(data.identifier)), ParamObject(Missing, Str(if |password| >= 8 then password else password)))
  }

  /** `sanitizeEmailSendRequest`: only the identifier survives. */
  function SanitizeEmailSendRequest(data: ManualValidation.EmailSendRequest): (b: RequestBody)
    ensures b == RequestBody(Str(ToLower(Trim(data.identifier))), NotObject(false))
  {
    RequestBody(Str(NormalizeIdentifier(data.identifier)), NotObject(false))
  }

  // ---------------------------------------------------------------------------
  // The middleware
  // ---------------------------------------------------------------------------

  /** The one answer to every rejected request. */
  const InvalidFormat: Response :=
    Response(400, None, BareErrorBody("Invalid request format", "Please check your request data"))

  const EmailAuthEndpoint: string := "/method/email"
  const PasswordAuthEndpoint: string := "/method/pass"
  const EmailSendEndpoint: string := "/method/email/send"

  /** What a middleware call does: pass on or answer, and what it logged. */
  datatype Screening = Screening(outcome: Outcome, log: Option<ValidationLog>)

  /** `req.ip || 'unknown'`. */
  function ClientIp(ip: Option<string>): (r: string)
    ensures r != ""
    ensures Truthy(ip) ==> r == ip.value
  {
    if Truthy(ip) then ip.value else "unknown"
  }

  /** A rejection: the fixed answer, and a log entry when a logger is configured. */
  function Refuse(ip: Option<string>, endpoint: string, errors: seq<string>, hasLogger: bool): (s: Screening)
    ensures s.outcome == Reject(InvalidFormat)
    ensures s.log.Some? <==> hasLogger
    ensures s.log.Some? ==> s.log.value.endpoint == endpoint && s.log.value.summary == ErrorSummary(errors)
    ensures s.log.Some? ==> s.log.value.maskedIp == MaskIpAddress(ClientIp(ip))
  {
    Screening(Reject(InvalidFormat),
              if hasLogger then Some(LogValidationError(ClientIp(ip), endpoint, errors)) else None)
  }

  /**
   * The error list a failed hand-written validation hands to the formatter
   * (an `Invalid` always carries one).
   */
  function ErrorList<T>(v: ManualValidation.Validation<T>): seq<RawError>
  {
    if v.Invalid? then seq(|v.errors|, i requires 0 <= i < |v.errors| => StringError(v.errors[i])) else []
  }

  /** `validateEmailAuth` of the middleware. */
  function ValidateEmailAuth(data: Option<RequestBody>, ip: Option<string>, hasLogger: bool): (s: Screening)
    ensures s.outcome.Next? <==> ManualValidation.ValidateEmailAuth(data).Valid?
    ensures s.outcome.Next? ==>
              s.log.None? && s.outcome.body == SanitizeEmailAuthRequest(ManualValidation.ValidateEmailAuth(data).data)
    ensures s.outcome.Reject? ==>
              s == Refuse(ip, EmailAuthEndpoint, ManualValidation.ValidateEmailAuth(data).errors, hasLogger)
  {
    var v := ManualValidation.ValidateEmailAuth(data);
    if v.Invalid? then
      StringErrorsPassThrough(v.errors);
      Refuse(ip, EmailAuthEndpoint, FormatValidationErrors(Some(ErrorList(v))), hasLogger)
    else Screening(Next(SanitizeEmailAuthRequest(v.data)), None)
  }

  /** `validatePasswordAuth` of the middleware. */
  function ValidatePasswordAuth(data: Option<RequestBody>, ip: Option<string>, hasLogger: bool): (s: Screening)
    ensures s.outcome.Next? <==> ManualValidation.ValidatePasswordAuth(data).Valid?
    ensures s.outcome.Next? ==>
              s.log.None? && s.outcome.body == SanitizePasswordAuthRequest(ManualValidation.ValidatePasswordAuth(data).data)
    ensures s.outcome.Reject? ==>
              s == Refuse(ip, PasswordAuthEndpoint, ManualValidation.ValidatePasswordAuth(data).errors, hasLogger)
  {
    var v := ManualValidation.ValidatePasswordAuth(data);
    if v.Invalid? then
      StringErrorsPassThrough(v.errors);
      Refuse(ip, PasswordAuthEndpoint, FormatValidationErrors(Some(ErrorList(v))), hasLogger)
    else Screening(Next(SanitizePasswordAuthRequest(v.data)), None)
  }

  /** `validateEmailSend` of the middleware. */
  function ValidateEmailSend(data: Option<RequestBody>, ip: Option<string>, hasLogger: bool): (s: Screening)
    ensures s.outcome.Next? <==> ManualValidation.ValidateEmailSend(data).Valid?
    ensures s.outcome.Next? ==>
              s.log.None? && s.outcome.body == SanitizeEmailSendRequest(ManualValidation.ValidateEmailSend(data).data)
    ensures s.outcome.Reject? ==>
              s == Refuse(ip, EmailSendEndpoint, ManualValidation.ValidateEmailSend(data).errors, hasLogger)
  {
    var v := ManualValidation.ValidateEmailSend(data);
    if v.Invalid? then
      StringErrorsPassThrough(v.errors);
      Refuse(ip, EmailSendEndpoint, FormatValidationErrors(Some(ErrorList(v))), hasLogger)
    else Screening(Next(SanitizeEmailSendRequest(v.data)), None)
  }

  /**
   * The answer tells the client nothing about what was wrong: any two
   * rejected requests, on any route, get the same response.
   */
  lemma RejectionsAreIndistinguishable(d1: Option<RequestBody>, d2: Option<RequestBody>, ip: Option<string>, hasLogger: bool)
    requires ValidateEmailAuth(d1, ip, hasLogger).outcome.Reject?
    requires ValidatePasswordAuth(d2, ip, hasLogger).outcome.Reject?
    ensures ValidateEmailAuth(d1, ip, hasLogger).outcome == ValidatePasswordAuth(d2, ip, hasLogger).outcome
    ensures ValidateEmailAuth(d1, ip, hasLogger).outcome == ValidateEmailSend(None, ip, hasLogger).outcome
  {
  }

  /** A basic email has no whitespace, so trimming its lower-case form changes nothing. */
  lemma NormalizeBasicEmail(identifier: string)
    requires IsBasicEmail(identifier)
    ensures NormalizeIdentifier(identifier) == ToLower(identifier)
  {
    assert identifier != [];
    assert !IsJsWhitespace(identifier[0]);
    TrimStartNoop(identifier);
    assert !IsJsWhitespace(identifier[|identifier| - 1]);
    TrimEndNoop(identifier);
    assert Trim(identifier) == identifier;
  }


  /**
   * A code-login request that passes reaches the controller with its code
   * untouched and its identifier only lower-cased.
   */
  lemma EmailAuthKeepsValidatedValues(data: Option<RequestBody>, ip: Option<string>, hasLogger: bool)
    requires ValidateEmailAuth(data, ip, hasLogger).outcome.Next?
    ensures var b := ValidateEmailAuth(data, ip, hasLogger).outcome.body;
            && data.Some?
            && b == RequestBody(Str(ToLower(data.value.identifier.s)), ParamObject(data.value.params.code, Missing))
            && ManualValidation.IsSixDigitCode(b.params.code.s)
  {
    var v := ManualValidation.ValidateEmailAuth(data);
    NormalizeBasicEmail(v.data.identifier);
    DigitsOnlyOfDigits(v.data.code);
  }

  /**
   * A password-login request that passes reaches the controller with its
   * password untouched: the validator already capped it at 128 characters.
   */
  lemma PasswordAuthKeepsValidatedValues(data: Option<RequestBody>, ip: Option<string>, hasLogger: bool)
    requires ValidatePasswordAuth(data, ip, hasLogger).outcome.Next?
    ensures var b := ValidatePasswordAuth(data, ip, hasLogger).outcome.body;
            && data.Some?
            && b == RequestBody(Str(ToLower(data.value.identifier.s)), ParamObject(Missing, data.value.params.password))
  {
    var v := ManualValidation.ValidatePasswordAuth(data);
    NormalizeBasicEmail(v.data.identifier);
  }

  /** Rewriting is idempotent: a sanitised code-login body passes again and comes out the same. */
  lemma EmailAuthIdempotent(data: Option<RequestBody>, ip: Option<string>, hasLogger: bool)
    requires ValidateEmailAuth(data, ip, hasLogger).outcome.Next?
    requires forall k :: 0 <= k < |data.value.identifier.s| ==> !IsAsciiUpper(data.value.identifier.s[k])
    ensures var b := ValidateEmailAuth(data, ip, hasLogger).outcome.body;
            ValidateEmailAuth(Some(b), ip, hasLogger).outcome == Next(b)
  {
    EmailAuthKeepsValidatedValues(data, ip, hasLogger);
    var s := data.value.identifier.s;
    assert ToLower(s) == s;
    var b := ValidateEmailAuth(data, ip, hasLogger).outcome.body;
    EmailAuthKeepsValidatedValues(Some(b), ip, hasLogger);
  }
}
