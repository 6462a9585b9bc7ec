/**
 * Shared vocabulary of the authentication core: optional values, the closed
 * set of failures the services raise, and the result type that replaces
 * thrown exceptions.
 */
module Base {

  /** A value that may be absent (`null` / `undefined` in the source). */
  datatype Option<T> = None | Some(value: T)

  /**
   * A string field is "truthy" in the source exactly when it is present and
   * non-empty: `null`, `undefined` and `""` are all falsy.
   */
  predicate Truthy(s: Option<string>)
  {
    s.Some? && s.value != ""
  }

  /**
   * The three error classes the core throws:
   * `UserNotFoundError`, `AuthenticationError(msg)` and a plain `Error(msg)`.
   */
  datatype Failure =
    | UserNotFound
    | AuthError(msg: string)
    | Error(msg: string)
  {
    /** The `message` property of the thrown error object. */
    function Message(): string
    {
      match this
      case UserNotFound => "User not found"
      case AuthError(m) => m
      case Error(m) => m
    }
  }

  /** Either a value or the failure that was thrown instead. */
  datatype Result<T> = Ok(value: T) | Err(failure: Failure)

  /** A check that returns nothing on success or throws one failure. */
  datatype Check = Pass | Fail(failure: Failure)
}
