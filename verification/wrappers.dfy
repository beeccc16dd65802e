/** Failure-compatible wrappers: `Option` for a value that may be absent and
    `Result` for a computation that may throw. */
module Wrappers {

  datatype Option<+T> = None | Some(value: T) {

    /** The wrapped value, or `default` when there is none. */
    function GetOr(default: T): T {
      match this
      case Some(v) => v
      case None => default
    }
  }

  datatype Result<+T, +E> = Success(value: T) | Failure(error: E) {

    predicate IsFailure() {
      Failure?
    }

    function PropagateFailure<U>(): Result<U, E>
      requires Failure?
    {
      Failure(error)
    }

    function Extract(): T
      requires Success?
    {
      value
    }
  }
}

/** The three ways an operation of the link wrapper can fail. */
module Errors {

  /** The message the source attaches to a password with no user. */
  const NoUserMessage: string := "A `Link` can not have a password with no user."

  datatype Error =
      /** parse_url rejected the href. */
    | UrlParseError(href: string)
      /** A password was given without a user (a LogicException in the source). */
    | InvalidAuth(message: string)
      /** A `build` key named no accessor (a BadMethodCallException in the
          source); carries the key and the method name built from it. */
    | UnknownComponent(key: string, methodName: string)
}
