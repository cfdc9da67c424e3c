/** Option and Result, the two failure-carrying values the model uses in
    place of `undefined`/`null` and of thrown exceptions. */
module Wrappers {

  datatype Option<+T> = None | Some(value: T) {
    function GetOr(default: T): T {
      match this
      case Some(v) => v
      case None => default
    }
  }

  /** A computation that either yields a value or stops with a message. */
  datatype Result<+T> = Ok(value: T) | Err(message: string)
}
