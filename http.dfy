/**
 * What the services throw and return. Nest's exception classes become one datatype, and an
 * awaited call that either resolves or rejects becomes an `Outcome`.
 */
module Http {

  const UNAUTHORIZED: int := 401
  const CONFLICT: int := 409
  const INTERNAL_SERVER_ERROR: int := 500

  /** A thrown value, by the class the service's `instanceof` tests tell apart. */
  datatype Exception =
    | Unauthorized(message: string)              // UnauthorizedException (a subclass of HttpException)
    | HttpError(message: string, status: int)    // any other HttpException
    | Error(message: string)                     // anything thrown that is not an HttpException

  /** `e instanceof HttpException` */
  predicate IsHttpException(e: Exception) {
    e.Unauthorized? || e.HttpError?
  }

  /** The response status Nest sends for an exception that escapes a handler. */
  function Status(e: Exception): int {
    match e
    case Unauthorized(_) => UNAUTHORIZED
    case HttpError(_, status) => status
    case Error(_) => INTERNAL_SERVER_ERROR
  }

  /** The settled value of an awaited service call: resolved with a value, or rejected. */
  datatype Outcome<+T> = Ok(value: T) | Thrown(error: Exception)

  /** The result of a call into a foreign library (bcrypt, jsonwebtoken) that may throw. */
  datatype Attempt<+T> = Returned(value: T) | Raised(cause: string)
}
