/** Types shared by every component of the model. */
module Prelude {

  /** A value that may be absent: a nullable column, a nil pointer, a JSON null. */
  datatype Option<+T> = None | Some(value: T) {
    function GetOr(default: T): T {
      if None? then default else value
    }
  }

  /** The outcome of a call that can fail. */
  datatype Result<+T, +E> = Ok(value: T) | Err(error: E)
}
