/** Option and Result types shared by the whole model. */
module Wrappers {

  /** A value that may be absent: JavaScript's `undefined`/`null` where the source allows it. */
  datatype Option<+T> = None | Some(value: T) {
    function GetOr(default: T): T {
      match this
      case Some(v) => v
      case None => default
    }
  }

  /** The outcome of an operation that may fail; `Err` carries the reason. */
  datatype Result<+T> = Ok(value: T) | Err(error: string)
}
