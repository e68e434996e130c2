/** Optional values and success-or-error results shared by every module. */
module Common {

  /** A value that may be absent: a nullable column, a missing form field, a lookup that found nothing. */
  datatype Option<T> = None | Some(value: T) {
    function GetOr(default: T): T {
      if Some? then value else default
    }
  }

  /** The outcome of a validation step: the validated value or the error it raised. */
  datatype Result<T, E> = Ok(value: T) | Err(error: E)

  function Max(a: int, b: int): int {
    if a < b then b else a
  }
}
