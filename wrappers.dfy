/** Optional values and fallible results shared by the other modules. */
module Wrappers {

  /** A value that may be absent (`undefined`/`null` in the client code). */
  datatype Option<+T> = None | Some(value: T) {
    /** The value, or `default` when absent: the `?? default` operator. */
    function GetOr(default: T): T {
      match this
      case Some(v) => v
      case None => default
    }
  }

  /** The outcome of an evaluation that can throw. */
  datatype Result<+R, +E> = Ok(value: R) | Err(error: E)
}
