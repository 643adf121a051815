/** Failure-carrying values: JavaScript's `undefined`/`null` results and thrown errors. */
module Wrappers {

  /** A value that may be absent (`undefined` or `null` in the source). */
  datatype Option<+T> = None | Some(value: T) {
    function GetOr(default: T): T {
      match this
      case Some(v) => v
      case None => default
    }
  }

  /** Either a value or the message of the error the source throws. */
  datatype Result<+T> = Ok(value: T) | Err(message: string)
}
