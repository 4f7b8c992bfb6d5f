/** The usual optional value, used for the source's `undefined`/`null`. */
module Wrappers {
  datatype Option<+T> = None | Some(value: T) {
    function GetOr(default: T): T {
      match this
      case Some(v) => v
      case None => default
    }
  }

  /** A returned value or a thrown error. */
  datatype Result<+T, +E> = Ok(value: T) | Err(error: E)

  /** How a call to another process ends: fine, or with an error that leaves its effect done or not. */
  datatype Call = Fine | Broke(applied: bool) {
    predicate TookEffect() {
      this != Broke(false)
    }
  }
}
