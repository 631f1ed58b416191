/** Option and Result: the "value or nothing" and "value or error" shapes used
    wherever the JavaScript source returns null, throws, or exits early. */
module Wrappers {

  datatype Option<+T> = None | Some(value: T) {
    function GetOr(default: T): T {
      match this
      case Some(v) => v
      case None => default
    }
  }

  datatype Result<+T, +E> = Ok(value: T) | Err(error: E)
}
