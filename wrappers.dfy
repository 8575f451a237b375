/** The optional-value and outcome wrappers used throughout the model. */
module Wrappers {

  /** A value that may be absent: Kotlin's nullable `T?`. */
  datatype Option<+T> = None | Some(value: T) {

    /** Kotlin's `x ?: default`. */
    function GetOr(default: T): T {
      if Some? then value else default
    }
  }

  /** The result of a check that either passes or fails with an error value. */
  datatype Outcome<+E> = Pass | Fail(error: E)
}
