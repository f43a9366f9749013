/** Option and Result values shared by every module of the model. */
module Wrappers {

  /** A value that may be absent: Python's `None` or a missing dictionary key. */
  datatype Option<+T> = None | Some(value: T) {
    function GetOr(default: T): T {
      match this
      case Some(v) => v
      case None => default
    }
  }

  /** The outcome of an operation whose source raises on some inputs. */
  datatype Result<+R, +E> = Ok(value: R) | Err(error: E)
}
