/**
 * The hand-written request validators used in development: every check
 * adds its own message to an error list, and a request is valid exactly when
 * the list stays empty.
 */
module ManualValidation {
  import opened Base
  import opened Text
  import opened Requests

  /** `ValidationResult<T>`: the validated data, or the accumulated messages. */
  datatype Validation<T> = Valid(data: T) | Invalid(errors: seq<string>)

  datatype EmailAuthRequest = EmailAuthRequest(identifier: string, code: string)
  datatype PasswordAuthRequest = PasswordAuthRequest(identifier: string, password: string)
  datatype EmailSendRequest = EmailSendRequest(identifier: string)

  /** `^[0-9]{6}$`. */
  predicate IsSixDigitCode(s: string)
  {
    |s| == 6 && AllDigits(s)
  }

  /** The class `[A-Za-z\d@$!%*?&]`. */
  predicate IsPasswordChar(c: char)
  {
    IsAsciiAlnum(c) || c in "@$!%*?&"
  }

  /**
   * `^(?=.*[a-z])(?=.*[A-Z])(?=.*\d)[A-Za-z\d@$!%*?&]{8,}$`: at least eight
   * characters, all from the class, among them a lowercase letter, an
   * uppercase letter and a digit.
   */
  predicate IsComplexPassword(s: string)
  {
    && |s| >= 8
    && (forall k :: 0 <= k < |s| ==> IsPasswordChar(s[k]))
    && (exists k :: 0 <= k < |s| && IsAsciiLower(s[k]))
    && (exists k :: 0 <= k < |s| && IsAsciiUpper(s[k]))
    && (exists k :: 0 <= k < |s| && IsDigit(s[k]))
  }

  const InvalidBody: string := "Invalid request body"
  const IdentifierRequired: string := "identifier is required and must be a string"
  const IdentifierFormat: string := "identifier must be a valid email address"
  const ParamsRequired: string := "params is required and must be an object"
  const CodeRequired: string := "params.code is required and must be a string"
  const CodeFormat: string := "params.code must be exactly 6 digits"
  const PasswordRequired: string := "params.password is required and must be a string"
  const PasswordTooShort: string := "params.password must be at least 8 characters long"
  const PasswordTooLong: string := "params.password must not exceed 128 characters"
  const PasswordTooSimple: string :=
    "params.password must contain at least one lowercase letter, one uppercase letter, and one number"

  /** The identifier's message, if any: presence and type first, then the basic format. */
  function IdentifierErrors(identifier: Field): (errs: seq<string>)
    ensures errs == [] <==> NonEmptyString(identifier) && IsBasicEmail(identifier.s)
    ensures errs == [IdentifierRequired] <==> !NonEmptyString(identifier)
    ensures errs != [] ==> errs == [IdentifierRequired] || errs == [IdentifierFormat]
  {
    if !NonEmptyString(identifier) then [IdentifierRequired]
    else if !IsBasicEmail(identifier.s) then [IdentifierFormat]
    else []
  }

  /** The messages about `params` and its code. */
  function CodeErrors(params: Params): (errs: seq<string>)
    ensures errs == [] <==> params.ParamObject? && NonEmptyString(params.code) && IsSixDigitCode(params.code.s)
    ensures |errs| <= 1
    // Each failure draws its own message: params first, then the code's presence, then its format.
    ensures !params.ParamObject? ==> errs == [ParamsRequired]
    ensures params.ParamObject? && !NonEmptyString(params.code) ==> errs == [CodeRequired]
    ensures params.ParamObject? && NonEmptyString(params.code) && !IsSixDigitCode(params.code.s) ==>
              errs == [CodeFormat]
  {
    if !params.ParamObject? then [ParamsRequired]
    else if !NonEmptyString(params.code) then [CodeRequired]
    else if !IsSixDigitCode(params.code.s) then [CodeFormat]
    else []
  }

  /**
   * The messages about a string password: the two length bounds and the
   * complexity rule are checked independently, so several can appear.
   */
  function PasswordStringErrors(password: string): (errs: seq<string>)
    ensures errs == [] <==> IsComplexPassword(password) && |password| <= 128
    ensures PasswordTooShort in errs <==> |password| < 8
    ensures PasswordTooLong in errs <==> |password| > 128
    ensures PasswordTooSimple in errs <==> !IsComplexPassword(password)
    ensures |errs| <= 2
  {
    (if |password| < 8 then [PasswordTooShort] else [])
    + (if |password| > 128 then [PasswordTooLong] else [])
    + (if !IsComplexPassword(password) then [PasswordTooSimple] else [])
  }

  /** The messages about `params` and its password. */
  function PasswordErrors(params: Params): (errs: seq<string>)
    ensures errs == [] <==>
              params.ParamObject? && NonEmptyString(params.password)
              && IsComplexPassword(params.password.s) && |params.password.s| <= 128
    ensures |errs| <= 2
    // Params first, then the password's presence; a string password gets the string checks.
    ensures !params.ParamObject? ==> errs == [ParamsRequired]
    ensures params.ParamObject? && !NonEmptyString(params.password) ==> errs == [PasswordRequired]
    ensures params.ParamObject? && NonEmptyString(params.password) ==>
              errs == PasswordStringErrors(params.password.s)
  {
    if !params.ParamObject? then [ParamsRequired]
    else if !NonEmptyString(params.password) then [PasswordRequired]
    else PasswordStringErrors(params.password.s)
  }

  /** `validateEmailAuth`. */
  function ValidateEmailAuth(data: Option<RequestBody>): (r: Validation<EmailAuthRequest>)
    ensures data.None? ==> r == Invalid([InvalidBody])
    ensures data.Some? && r.Invalid? ==>
              r.errors == IdentifierErrors(data.value.identifier) + CodeErrors(data.value.params)
    ensures r.Valid? <==>
              && data.Some? && NonEmptyString(data.value.identifier) && IsBasicEmail(data.value.identifier.s)
              && data.value.params.ParamObject? && NonEmptyString(data.value.params.code)
              && IsSixDigitCode(data.value.params.code.s)
    ensures r.Valid? ==> r.data == EmailAuthRequest(data.value.identifier.s, data.value.params.code.s)
    ensures r.Invalid? ==> 1 <= |r.errors| <= 2
  {
    match data
    case None => Invalid([InvalidBody])
    case Some(body) =>
      var errs := IdentifierErrors(body.identifier) + CodeErrors(body.params);
      if |errs| > 0 then Invalid(errs)
      else Valid(EmailAuthRequest(body.identifier.s, body.params.code.s))
  }

  /** `validatePasswordAuth`. */
  function ValidatePasswordAuth(data: Option<RequestBody>): (r: Validation<PasswordAuthRequest>)
    ensures data.None? ==> r == Invalid([InvalidBody])
    ensures data.Some? && r.Invalid? ==>
              r.errors == IdentifierErrors(data.value.identifier) + PasswordErrors(data.value.params)
    ensures r.Valid? <==>
              && data.Some? && NonEmptyString(data.value.identifier) && IsBasicEmail(data.value.identifier.s)
              && data.value.params.ParamObject? && NonEmptyString(data.value.params.password)
              && IsComplexPassword(data.value.params.password.s) && |data.value.params.password.s| <= 128
    ensures r.Valid? ==> r.data == PasswordAuthRequest(data.value.identifier.s, data.value.params.password.s)
    ensures r.Invalid? ==> 1 <= |r.errors| <= 3
  {
    match data
    case None => Invalid([InvalidBody])
    case Some(body) =>
      var errs := IdentifierErrors(body.identifier) + PasswordErrors(body.params);
      if |errs| > 0 then Invalid(errs)
      else Valid(PasswordAuthRequest(body.identifier.s, body.params.password.s))
  }

  /** `validateEmailSend`: only the identifier is checked. */
  function ValidateEmailSend(data: Option<RequestBody>): (r: Validation<EmailSendRequest>)
    ensures data.None? ==> r == Invalid([InvalidBody])
    ensures data.Some? && r.Invalid? ==> r.errors == IdentifierErrors(data.value.identifier)
    ensures r.Valid? <==> data.Some? && NonEmptyString(data.value.identifier) && IsBasicEmail(data.value.identifier.s)
    ensures r.Valid? ==> r.data == EmailSendRequest(data.value.identifier.s)
  {
    match data
    case None => Invalid([InvalidBody])
    case Some(body) =>
      var errs := IdentifierErrors(body.identifier);
      if |errs| > 0 then Invalid(errs) else Valid(EmailSendRequest(body.identifier.s))
  }

  /** A password under eight characters always draws both the length and the complexity message. */
  lemma ShortPasswordDrawsTwoMessages(identifier: Field, password: string)
    requires password != "" && |password| < 8
    ensures var r := ValidatePasswordAuth(Some(RequestBody(identifier, ParamObject(Missing, Str(password)))));
            && r.Invalid?
            && PasswordTooShort in r.errors && PasswordTooSimple in r.errors
  {
  }

  /**
   * Errors about the identifier and about `params` accumulate: a body that
   * gets both wrong hears about both, identifier first.
   */
  lemma ErrorsAccumulateInOrder(identifier: Field, params: Params)
    requires !NonEmptyString(identifier) && !params.ParamObject?
    ensures ValidateEmailAuth(Some(RequestBody(identifier, params))) == Invalid([IdentifierRequired, ParamsRequired])
    ensures ValidatePasswordAuth(Some(RequestBody(identifier, params))) == Invalid([IdentifierRequired, ParamsRequired])
  {
  }

  /** `Password1` is complex; `password1` lacks an uppercase letter. */
  lemma PasswordExamples()
    ensures IsComplexPassword("Password1")
    ensures !IsComplexPassword("password1")
  {
    assert IsAsciiUpper("Password1"[0]) && IsAsciiLower("Password1"[1]) && IsDigit("Password1"[8]);
    assert forall k :: 0 <= k < |"password1"| ==> !IsAsciiUpper("password1"[k]);
  }
}
