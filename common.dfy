/** Shared value types: optional values, results, and the HTTP errors the service raises. */
module Common {

  datatype Option<+T> = None | Some(value: T) {
    function GetOr(default: T): T {
      match this
      case Some(v) => v
      case None => default
    }
  }

  datatype Result<+T, +E> = Ok(value: T) | Err(error: E)

  /** An HTTPException: a status code and its `detail` text. */
  datatype HttpError = HttpError(status: int, detail: string)

  const BadRequest := 400
  const Unauthorized := 401
  const Forbidden := 403

  /** The clock is an integer count of seconds. */
  const SecondsPerMinute := 60
}
