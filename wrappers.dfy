/** Option and Result: the nullable values and the error returns of the app. */
module Wrappers {

  /** A Kotlin `T?`: `None` stands for `null`. */
  datatype Option<+T> = None | Some(value: T) {

    /** The elvis operator `this ?: default`. */
    function GetOr(default: T): T {
      match this
      case Some(v) => v
      case None => default
    }
  }

  /** A value, or the error that replaces it. */
  datatype Result<+R, +E> = Success(value: R) | Failure(error: E)
}
