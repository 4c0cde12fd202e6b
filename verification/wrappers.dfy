/** Optional values and results, as the application uses `null`/`undefined`
    and error returns. */
module Wrappers {

  /** `null` / `undefined` versus a present value. */
  datatype Option<+T> = None | Some(value: T) {
    /** The JavaScript `x ?? d` / `x || d` idiom for a nullable value. */
    function GetOr(default: T): T {
      match this
      case Some(v) => v
      case None => default
    }
  }

  /** A value or the error message the screen would show. */
  datatype Result<+T, +E> = Ok(value: T) | Err(error: E)
}
