/** Optional values and error-or-value results, used wherever the TypeScript
    code has an optional field (`x?: T`) or a call that may throw. */
module Wrappers {

  datatype Option<+T> = None | Some(value: T) {
    function GetOr(default: T): T {
      match this
      case Some(v) => v
      case None => default
    }
  }

  /** The outcome of a call that either returns a value or throws an `Error`
      whose `message` is kept. */
  datatype Result<+T> = Ok(value: T) | Err(message: string)
}
