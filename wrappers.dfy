/** Failure-compatible wrappers shared by the other modules. */
module Wrappers {

  /** A value that may be absent: Java's `null` reference. */
  datatype Option<+T> = None | Some(value: T) {
    function GetOr(default: T): T {
      match this
      case Some(v) => v
      case None => default
    }
  }

  /** The outcome of a step that either completes or throws. */
  datatype Outcome<+E> = Pass | Fail(error: E)
}
