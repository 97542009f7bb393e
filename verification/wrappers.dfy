/** Optional values (JavaScript's `undefined` / `null` on a field or a return
    value) and outcomes of code that may throw. */
module Wrappers {

  datatype Option<+T> = None | Some(value: T) {

    /** The value, or a default when absent (JavaScript's `x || d` on a present-or-missing value). */
    function GetOr(default: T): T {
      match this
      case Some(v) => v
      case None => default
    }
  }

  /** A function's result, or the `TypeError` it throws. */
  datatype Outcome<+T> = Returns(value: T) | Throws
}
