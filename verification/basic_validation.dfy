/**
 * The three basic request validators: required fields first, then the
 * basic email format; a request that passes reaches `next` with its body
 * untouched.
 */
module BasicValidation {
  import opened Base
  import opened Text
  import opened Http
  import opened Requests

  /** `validateEmailAuth`: identifier, then `params.code`, then the email format. */
  function ValidateEmailAuth(body: RequestBody): (r: Outcome)
    ensures !Present(body.identifier) ==> r == Reject(BadRequest("Missing required field: identifier"))
    ensures Present(body.identifier) && !Present(ParamsCode(body.params)) ==>
              r == Reject(BadRequest("Missing required field: params.code"))
    ensures Present(body.identifier) && Present(ParamsCode(body.params)) && !IsBasicEmail(Coerce(body.identifier)) ==>
              r == Reject(BadRequest("Invalid email format"))
    ensures r.Next? <==>
              Present(body.identifier) && Present(ParamsCode(body.params)) && IsBasicEmail(Coerce(body.identifier))
    ensures r.Next? ==> r.body == body
  {
    if !Present(body.identifier) then Reject(BadRequest("Missing required field: identifier"))
    else if !Present(ParamsCode(body.params)) then Reject(BadRequest("Missing required field: params.code"))
    else if !IsBasicEmail(Coerce(body.identifier)) then Reject(BadRequest("Invalid email format"))
    else Next(body)
  }

  /** `validatePasswordAuth`: identifier, then `params.password`, then the email format. */
  function ValidatePasswordAuth(body: RequestBody): (r: Outcome)
    ensures !Present(body.identifier) ==> r == Reject(BadRequest("Missing required field: identifier"))
    ensures Present(body.identifier) && !Present(ParamsPassword(body.params)) ==>
              r == Reject(BadRequest("Missing required field: params.password"))
    ensures Present(body.identifier) && Present(ParamsPassword(body.params)) && !IsBasicEmail(Coerce(body.identifier)) ==>
              r == Reject(BadRequest("Invalid email format"))
    ensures r.Next? <==>
              Present(body.identifier) && Present(ParamsPassword(body.params)) && IsBasicEmail(Coerce(body.identifier))
    ensures r.Next? ==> r.body == body
  {
    if !Present(body.identifier) then Reject(BadRequest("Missing required field: identifier"))
    else if !Present(ParamsPassword(body.params)) then Reject(BadRequest("Missing required field: params.password"))
    else if !IsBasicEmail(Coerce(body.identifier)) then Reject(BadRequest("Invalid email format"))
    else Next(body)
  }

  /** `validateEmailSend`: identifier, then the email format; `params` is not looked at. */
  function ValidateEmailSend(body: RequestBody): (r: Outcome)
    ensures !Present(body.identifier) ==> r == Reject(BadRequest("Missing required field: identifier"))
    ensures Present(body.identifier) && !IsBasicEmail(Coerce(body.identifier)) ==>
              r == Reject(BadRequest("Invalid email format"))
    ensures r.Next? <==> Present(body.identifier) && IsBasicEmail(Coerce(body.identifier))
    ensures r.Next? ==> r.body == body
  {
    if !Present(body.identifier) then Reject(BadRequest("Missing required field: identifier"))
    else if !IsBasicEmail(Coerce(body.identifier)) then Reject(BadRequest("Invalid email format"))
    else Next(body)
  }

  /**
   * Send-code asks for less than either login: a body that passes a login
   * validator passes it too, and its answer ignores `params` entirely.
   */
  lemma SendAcceptsWhatLoginAccepts(body: RequestBody, params: Params)
    ensures ValidateEmailAuth(body).Next? ==> ValidateEmailSend(body).Next?
    ensures ValidatePasswordAuth(body).Next? ==> ValidateEmailSend(body).Next?
    ensures ValidateEmailSend(body.(params := params)).Next? == ValidateEmailSend(body).Next?
  {
  }

  /**
   * A string identifier is judged on the string itself; a truthy non-string
   * one (say a one-element array) is judged on its string form.
   */
  lemma NonStringIdentifierJudgedByText(text: string, params: Params)
    requires IsBasicEmail(text)
    ensures ValidateEmailSend(RequestBody(NonString(true, text), params)).Next?
  {
  }
}
