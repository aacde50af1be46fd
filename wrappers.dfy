/** Option and Result in the shape the Rust source uses them, plus the
    outcome of a call that may panic (an `unwrap` on a missing value). */
module Wrappers {

  datatype Option<+T> = None | Some(value: T) {
    function GetOr(default: T): T {
      match this
      case Some(v) => v
      case None => default
    }
  }

  datatype Result<+T, +E> = Ok(value: T) | Err(error: E)

  /** A computation that either returns a value or panics. */
  datatype MayPanic<+T> = Returned(value: T) | Panicked(reason: string)
}
