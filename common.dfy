/** Shared vocabulary of the backend model: the server clock, optional values,
    success-or-error results and the HTTP error kinds the NestJS services throw. */
module Common {

  /** A point on the server clock, in milliseconds (JavaScript `Date` values). */
  type Time = int

  const Second: int := 1000
  const Minute: int := 60 * Second
  const Hour: int := 60 * Minute
  const Day: int := 24 * Hour

  /** A nullable column or an optional argument. */
  datatype Option<+T> = None | Some(value: T)

  /** What a service call returns: a value, or the exception it throws. */
  datatype Result<+T, +E> = Success(value: T) | Failure(error: E)

  /** The NestJS HTTP exceptions thrown by the services, each with its message. */
  datatype HttpError =
    | BadRequest(message: string)
    | Unauthorized(message: string)
    | Forbidden(message: string)
    | NotFound(message: string)
    | Conflict(message: string)
      /** A database constraint violation surfacing as an unhandled error. */
    | InternalError(message: string)

  function Min(a: int, b: int): int { if a <= b then a else b }
}
