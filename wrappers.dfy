/** An optional value: the model's stand-in for JavaScript's `null` and `undefined`. */
module Wrappers {

  datatype Option<+T> = None | Some(value: T) {

    /** The value held, or `default` when there is none. */
    function GetOr(default: T): T {
      match this
      case Some(v) => v
      case None => default
    }
  }

  /**
   * How an awaited backend call ends: it resolves with a value, or it throws
   * an error whose `message` may be missing.
   */
  datatype Outcome<+T> = Success(value: T) | Failure(message: Option<string>)
}
