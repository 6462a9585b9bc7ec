/**
 * How the three validation layers relate on string inputs: the hand-written
 * validators ask for at least what the basic and enhanced middlewares ask
 * for, so their accepted values pass the later sanitisers untouched.
 */
module ValidationLayers {
  import opened Base
  import opened Text
  import opened Requests
  import BasicValidation
  import EnhancedValidation
  import ManualValidation

  /**
   * For a string identifier, the hand-written identifier check and the
   * basic middleware's presence-and-format check agree.
   */
  lemma IdentifierChecksAgree(identifier: string, params: Params)
    ensures ManualValidation.IdentifierErrors(Str(identifier)) == []
            <==> BasicValidation.ValidateEmailSend(RequestBody(Str(identifier), params)).Next?
  {
  }

  /**
   * A non-string identifier is refused by the hand-written validator even
   * when the basic middleware accepts its string form.
   */
  lemma NonStringIdentifierSplitsLayers(text: string, params: Params)
    requires IsBasicEmail(text)
    ensures ManualValidation.IdentifierErrors(NonString(true, text)) == [ManualValidation.IdentifierRequired]
    ensures BasicValidation.ValidateEmailSend(RequestBody(NonString(true, text), params)).Next?
  {
  }

  /** A code the hand-written validator accepts is its own sanitised form. */
  lemma SixDigitCodeSurvivesSanitizer(code: string)
    requires ManualValidation.IsSixDigitCode(code)
    ensures EnhancedValidation.SanitizeCode(Str(code)) == Ok(code)
  {
    DigitsOnlyOfDigits(code);
  }

  /** A password the hand-written validator accepts passes the enhanced length rule unchanged. */
  lemma ValidPasswordSurvivesSanitizer(password: string)
    requires ManualValidation.PasswordStringErrors(password) == []
    ensures EnhancedValidation.SanitizePassword(Str(password)) == Ok(password)
  {
  }

  /**
   * The enhanced rule is the looser one: a six- or seven-character password
   * passes it but not the hand-written validator.
   */
  lemma ShortPasswordSplitsLayers(password: string)
    requires 6 <= |password| < 8
    ensures EnhancedValidation.SanitizePassword(Str(password)) == Ok(password)
    ensures ManualValidation.PasswordTooShort in ManualValidation.PasswordStringErrors(password)
  {
  }
}
