/**
 * `InputSanitizerService` and the enhanced validation middleware that every
 * auth route runs: required fields first, then the sanitizers, whose
 * results replace the submitted values before the controller sees them.
 */
module EnhancedValidation {
  import opened Base
  import opened Text
  import opened Http
  import opened Requests

  // ---------------------------------------------------------------------------
  // The strict email format
  // ---------------------------------------------------------------------------

  /** The local-part class `[a-zA-Z0-9.!#$%&'*+/=?^_\`{|}~-]`. */
  predicate IsLocalChar(c: char)
  {
    IsAsciiAlnum(c) || c in ".!#$%&'*+/=?^_`{|}~-"
  }

  /**
   * One domain label, `[a-zA-Z0-9](?:[a-zA-Z0-9-]{0,61}[a-zA-Z0-9])?`:
   * 1 to 63 letters, digits or hyphens, starting and ending with a letter or
   * digit.
   */
  predicate IsLabel(l: string)
  {
    && 1 <= |l| <= 63
    && IsAsciiAlnum(l[0]) && IsAsciiAlnum(l[|l| - 1])
    && forall k :: 0 <= k < |l| ==> IsAsciiAlnum(l[k]) || l[k] == '-'
  }

  /**
   * The strict email pattern: a non-empty local part of allowed characters,
   * '@', and a domain of one or more labels separated by single dots. Labels
   * contain no dots, so the domain matches exactly when each piece of its
   * split on '.' is a label. A single label (no dot) is accepted.
   */
  predicate IsStrictEmail(s: string)
  {
    && '@' in s
    && var i := FirstIndexOf(s, '@');
    && 0 < i
    && (forall k :: 0 <= k < i ==> IsLocalChar(s[k]))
    && var labels := Split(s[i + 1..], '.');
    forall j :: 0 <= j < |labels| ==> IsLabel(labels[j])
  }

  /** `trim` then `toLowerCase` leaves a string that both operations fix. */
  lemma NormalizedIsFixed(s: string)
    ensures ToLower(Trim(ToLower(Trim(s)))) == ToLower(Trim(s))
    ensures Trim(ToLower(ToLower(Trim(s)))) == ToLower(Trim(s))
  {
    ToLowerIdempotent(Trim(s));
    TrimLowerCommute(Trim(s));
    TrimIdempotent(s);
  }

  // ---------------------------------------------------------------------------
  // InputSanitizerService
  // ---------------------------------------------------------------------------

  /**
   * `sanitizeEmail`: a non-empty string, trimmed and lowercased, that has the
   * strict format and at most 254 characters. The format is checked before the
   * length, and the final normalisation changes nothing.
   */
  function SanitizeEmail(email: Field): (r: Result<string>)
    ensures !NonEmptyString(email) ==> r == Err(Error("Invalid email input"))
    ensures NonEmptyString(email) ==>
              var t := ToLower(Trim(email.s));
              && (!IsStrictEmail(t) ==> r == Err(Error("Invalid email format")))
              && (IsStrictEmail(t) && |t| > 254 ==> r == Err(Error("Email too long")))
              && (IsStrictEmail(t) && |t| <= 254 ==> r == Ok(t))
    ensures r.Ok? ==> IsStrictEmail(r.value) && |r.value| <= 254 && ToLower(Trim(r.value)) == r.value
  {
    if !NonEmptyString(email) then Err(Error("Invalid email input"))
    else
      var trimmed := ToLower(Trim(email.s));
      if !IsStrictEmail(trimmed) then Err(Error("Invalid email format"))
      else if |trimmed| > 254 then Err(Error("Email too long"))
      else
        NormalizedIsFixed(email.s);
        Ok(Trim(ToLower(trimmed)))
  }

  /** Sanitizing a sanitized address gives it back. */
  lemma SanitizeEmailIdempotent(email: Field)
    requires SanitizeEmail(email).Ok?
    ensures SanitizeEmail(Str(SanitizeEmail(email).value)) == SanitizeEmail(email)
  {
    var v := SanitizeEmail(email).value;
    assert IsStrictEmail(v) && ToLower(Trim(v)) == v;
    assert NonEmptyString(Str(v));
  }

  /**
   * `sanitizeCode`: a non-empty string whose digits, once everything else is
   * removed, number exactly six; the result is those digits.
   */
  function SanitizeCode(code: Field): (r: Result<string>)
    ensures !NonEmptyString(code) ==> r == Err(Error("Invalid code input"))
    ensures NonEmptyString(code) && |DigitsOnly(code.s)| != 6 ==> r == Err(Error("Code must be exactly 6 digits"))
    ensures NonEmptyString(code) && |DigitsOnly(code.s)| == 6 ==> r == Ok(DigitsOnly(code.s))
    ensures r.Ok? ==> |r.value| == 6 && AllDigits(r.value)
  {
    if !NonEmptyString(code) then Err(Error("Invalid code input"))
    else
      var sanitized := DigitsOnly(code.s);
      if |sanitized| != 6 then Err(Error("Code must be exactly 6 digits")) else Ok(sanitized)
  }

  /** Sanitizing a sanitized code gives it back. */
  lemma SanitizeCodeIdempotent(code: Field)
    requires SanitizeCode(code).Ok?
    ensures SanitizeCode(Str(SanitizeCode(code).value)) == SanitizeCode(code)
  {
    DigitsOnlyIdempotent(code.s);
  }

  /** Separators are dropped: "12-34-56" is the code "123456". */
  lemma SanitizeCodeDropsSeparators(a: string, b: string, c: string, sep: char)
    requires AllDigits(a) && AllDigits(b) && AllDigits(c) && |a| + |b| + |c| == 6
    requires !IsDigit(sep)
    ensures SanitizeCode(Str(a + [sep] + b + [sep] + c)) == Ok(a + b + c)
  {
    assert DigitsOnly([sep]) == [];
    DigitsOnlyAppend(a + [sep] + b + [sep], c);
    DigitsOnlyAppend(a + [sep] + b, [sep]);
    DigitsOnlyAppend(a + [sep], b);
    DigitsOnlyAppend(a, [sep]);
    DigitsOnlyOfDigits(a);
    DigitsOnlyOfDigits(b);
    DigitsOnlyOfDigits(c);
    assert DigitsOnly(a + [sep]) == a;
    assert DigitsOnly(a + [sep] + b) == a + b;
    assert DigitsOnly(a + [sep] + b + [sep]) == a + b;
    assert DigitsOnly(a + [sep] + b + [sep] + c) == a + b + c;
    assert a + [sep] + b + [sep] + c != "";
  }


  /** `sanitizePassword`: a non-empty string of 6 to 128 characters, returned unchanged. */
  function SanitizePassword(password: Field): (r: Result<string>)
    ensures !NonEmptyString(password) ==> r == Err(Error("Invalid password input"))
    ensures NonEmptyString(password) && !(6 <= |password.s| <= 128) ==>
              r == Err(Error("Password must be between 6 and 128 characters"))
    ensures r.Ok? <==> NonEmptyString(password) && 6 <= |password.s| <= 128
    ensures r.Ok? ==> r.value == password.s
  {
    if !NonEmptyString(password) then Err(Error("Invalid password input"))
    else if |password.s| < 6 || |password.s| > 128 then Err(Error("Password must be between 6 and 128 characters"))
    else Ok(password.s)
  }

  // ---------------------------------------------------------------------------
  // EnhancedValidationMiddleware
  // ---------------------------------------------------------------------------

  /** A sanitizer's thrown error becomes a 400 carrying its message. */
  function Rejected<T>(r: Result<T>): Outcome
    requires r.Err?
  {
    Reject(BadRequest(r.failure.Message()))
  }

  /**
   * `validateEmailAuth`: identifier present, then `params.code` present,
   * then the email sanitizer, then the code sanitizer; both results replace
   * the submitted values.
   */
  function ValidateEmailAuth(body: RequestBody): (r: Outcome)
    ensures !Present(body.identifier) ==> r == Reject(BadRequest("Missing required field: identifier"))
    ensures Present(body.identifier) && !Present(ParamsCode(body.params)) ==>
              r == Reject(BadRequest("Missing required field: params.code"))
    ensures Present(body.identifier) && Present(ParamsCode(body.params)) && SanitizeEmail(body.identifier).Err? ==>
              r == Reject(BadRequest(SanitizeEmail(body.identifier).failure.Message()))
    ensures Present(body.identifier) && Present(ParamsCode(body.params)) && SanitizeEmail(body.identifier).Ok?
            && SanitizeCode(body.params.code).Err? ==>
              r == Reject(BadRequest(SanitizeCode(body.params.code).failure.Message()))
    ensures r.Next? <==>
              && Present(body.identifier) && Present(ParamsCode(body.params))
              && SanitizeEmail(body.identifier).Ok? && SanitizeCode(body.params.code).Ok?
    ensures r.Next? ==>
              r.body == RequestBody(Str(SanitizeEmail(body.identifier).value),
                                    body.params.(code := Str(SanitizeCode(body.params.code).value)))
    ensures r.Reject? ==> r.response.status == 400 && r.response.body.ErrorBody?
  {
    if !Present(body.identifier) then Reject(BadRequest("Missing required field: identifier"))
    else if !Present(ParamsCode(body.params)) then Reject(BadRequest("Missing required field: params.code"))
    else
      var email := SanitizeEmail(body.identifier);
      if email.Err? then Rejected(email)
      else
        var code := SanitizeCode(body.params.code);
        if code.Err? then Rejected(code)
        else Next(RequestBody(Str(email.value), body.params.(code := Str(code.value))))
  }

  /** `validatePasswordAuth`: as for email, with `params.password` and its sanitizer. */
  function ValidatePasswordAuth(body: RequestBody): (r: Outcome)
    ensures !Present(body.identifier) ==> r == Reject(BadRequest("Missing required field: identifier"))
    ensures Present(body.identifier) && !Present(ParamsPassword(body.params)) ==>
              r == Reject(BadRequest("Missing required field: params.password"))
    ensures Present(body.identifier) && Present(ParamsPassword(body.params)) && SanitizeEmail(body.identifier).Err? ==>
              r == Reject(BadRequest(SanitizeEmail(body.identifier).failure.Message()))
    ensures Present(body.identifier) && Present(ParamsPassword(body.params)) && SanitizeEmail(body.identifier).Ok?
            && SanitizePassword(body.params.password).Err? ==>
              r == Reject(BadRequest(SanitizePassword(body.params.password).failure.Message()))
    ensures r.Next? <==>
              && Present(body.identifier) && Present(ParamsPassword(body.params))
              && SanitizeEmail(body.identifier).Ok? && SanitizePassword(body.params.password).Ok?
    ensures r.Next? ==>
              r.body == RequestBody(Str(SanitizeEmail(body.identifier).value), body.params)
    ensures r.Reject? ==> r.response.status == 400 && r.response.body.ErrorBody?
  {
    if !Present(body.identifier) then Reject(BadRequest("Missing required field: identifier"))
    else if !Present(ParamsPassword(body.params)) then Reject(BadRequest("Missing required field: params.password"))
    else
      var email := SanitizeEmail(body.identifier);
      if email.Err? then Rejected(email)
      else
        var password := SanitizePassword(body.params.password);
        if password.Err? then Rejected(password)
        else Next(RequestBody(Str(email.value), body.params.(password := Str(password.value))))
  }

  /** `validateEmailSend`: identifier present, then the email sanitizer. */
  function ValidateEmailSend(body: RequestBody): (r: Outcome)
    ensures !Present(body.identifier) ==> r == Reject(BadRequest("Missing required field: identifier"))
    ensures Present(body.identifier) && SanitizeEmail(body.identifier).Err? ==>
              r == Reject(BadRequest(SanitizeEmail(body.identifier).failure.Message()))
    ensures r.Next? <==> Present(body.identifier) && SanitizeEmail(body.identifier).Ok?
    ensures r.Next? ==> r.body == body.(identifier := Str(SanitizeEmail(body.identifier).value))
  {
    if !Present(body.identifier) then Reject(BadRequest("Missing required field: identifier"))
    else
      var email := SanitizeEmail(body.identifier);
      if email.Err? then Rejected(email)
      else Next(body.(identifier := Str(email.value)))
  }

  // ---------------------------------------------------------------------------
  // What the controller receives
  // ---------------------------------------------------------------------------

  /**
   * A body that reaches the login controller carries a normalised address
   * and a six-digit code as strings, which the handlers take as given.
   */
  lemma EmailAuthDeliversControllerInputs(body: RequestBody)
    requires ValidateEmailAuth(body).Next?
    ensures var b := ValidateEmailAuth(body).body;
            && b.identifier.Str? && IsStrictEmail(b.identifier.s) && ToLower(Trim(b.identifier.s)) == b.identifier.s
            && b.params.ParamObject? && b.params.code.Str?
            && |b.params.code.s| == 6 && AllDigits(b.params.code.s)
  {
  }

  /** The middleware is idempotent: validating what it passed on passes it on unchanged. */
  lemma EmailAuthIdempotent(body: RequestBody)
    requires ValidateEmailAuth(body).Next?
    ensures ValidateEmailAuth(ValidateEmailAuth(body).body) == ValidateEmailAuth(body)
  {
    SanitizeEmailIdempotent(body.identifier);
    SanitizeCodeIdempotent(body.params.code);
  }

  lemma PasswordAuthIdempotent(body: RequestBody)
    requires ValidatePasswordAuth(body).Next?
    ensures ValidatePasswordAuth(ValidatePasswordAuth(body).body) == ValidatePasswordAuth(body)
  {
    SanitizeEmailIdempotent(body.identifier);
  }

  /**
   * A domain with a single label passes here although the basic format
   * refuses it: "a@localhost" is one such address.
   */
  lemma StrictAcceptsSingleLabelDomain(local: string, host: string)
    requires local != [] && forall k :: 0 <= k < |local| ==> IsLocalChar(local[k])
    requires IsLabel(host)
    ensures IsStrictEmail(local + "@" + host)
    ensures !IsBasicEmail(local + "@" + host)
  {
    var s := local + "@" + host;
    assert s == local + ['@'] + host;
    assert s[..|local|] == local;
    FirstIndexAfterFree(s, '@', |local|);
    assert s[|local| + 1..] == host;
    assert '.' !in host by {
      forall k | 0 <= k < |host| ensures host[k] != '.' {
        assert IsAsciiAlnum(host[k]) || host[k] == '-';
      }
    }
    SplitNoSeparator(host, '.');
  }

  /** A malformed address is reported as such even when it is also too long. */
  lemma FormatCheckedBeforeLength(email: string)
    requires email != "" && |ToLower(Trim(email))| > 254 && !IsStrictEmail(ToLower(Trim(email)))
    ensures SanitizeEmail(Str(email)) == Err(Error("Invalid email format"))
  {
  }
}
