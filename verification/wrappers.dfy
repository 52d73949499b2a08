/** Presence and failure wrappers shared by the model. */
module Wrappers {

  /** A field of a JSON object that may be absent. */
  datatype Option<+T> = None | Some(value: T) {
    /** The value, or `default` when absent (the `x || {}` idiom for objects). */
    function GetOr(default: T): T {
      match this
      case Some(v) => v
      case None => default
    }
  }

  /** The outcome of a step that can throw. */
  datatype Result<+T, +E> = Success(value: T) | Failure(error: E)
}
