/** Failure-carrying results shared by the modules of this model. */
module Wrappers {

  /** A value that may be absent: `undefined` or `null` on the TypeScript side. */
  datatype Option<+T> = None | Some(value: T) {
    function GetOr(default: T): T {
      match this
      case Some(v) => v
      case None => default
    }
  }

  /** The outcome of an operation that either completes or throws an error with a message. */
  datatype Outcome<+E> = Pass | Fail(error: E)
}
