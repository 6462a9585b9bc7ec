/**
 * The HTTP responses the handlers produce: a status, an optional `Link`
 * header and a JSON body of one of four shapes.
 */
module Http {
  import opened Base

  /** `{token}`, `{error, message, statusCode}`, `{error, message}` or `{message}`. */
  datatype Body =
    | TokenBody(token: string)
    | ErrorBody(error: string, message: string, statusCode: int)
    | BareErrorBody(error: string, message: string)
    | MessageBody(message: string)

  datatype Response = Response(status: int, link: Option<string>, body: Body)

  /** An error body always repeats the response status as `statusCode`. */
  predicate WellFormed(r: Response)
  {
    r.body.ErrorBody? ==> r.body.statusCode == r.status
  }

  /** A response with an error body and no `Link` header. */
  function ErrorResponse(status: int, error: string, message: string): (r: Response)
    ensures WellFormed(r) && r.link.None? && r.status == status
    ensures r.body == ErrorBody(error, message, status)
  {
    Response(status, None, ErrorBody(error, message, status))
  }
}
