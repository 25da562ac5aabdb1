/** Failure-carrying values used wherever the system returns `null`, throws,
    or calls an external service whose answer is given to the model as data. */
module Wrappers {

  /** A value that may be absent (`undefined` / `null` in the system). */
  datatype Option<+T> = None | Some(value: T) {

    /** The value, or `default` when absent (the `??` operator). */
    function GetOr(default: T): T {
      match this
      case Some(v) => v
      case None => default
    }
  }

  /** The outcome of a call that may throw: a value, or the error it threw. */
  datatype Result<+R, +E> = Ok(value: R) | Err(error: E)
}
