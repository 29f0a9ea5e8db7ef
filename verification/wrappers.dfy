/** Optional values and success/failure results shared by every module of the model. */
module Wrappers {

  /** A value that may be absent: JavaScript's `undefined`/`null`, or `NaN` for a parsed number. */
  datatype Option<+T> = None | Some(value: T) {

    /** The wrapped value, or `default` when there is none. */
    function GetOr(default: T): T {
      match this
      case Some(v) => v
      case None => default
    }
  }

  /** The outcome of a form validation: the accepted value, or the error message shown to the user. */
  datatype Result<+T, +E> = Ok(value: T) | Err(error: E)
}
