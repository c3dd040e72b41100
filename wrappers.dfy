/** Option and Result, the two failure-carrying shapes the listing code returns. */
module Wrappers {

  datatype Option<+T> = None | Some(value: T) {
    /** The wrapped value, or `default` when there is none (Rust's `unwrap_or`). */
    function GetOr(default: T): T {
      match this
      case Some(v) => v
      case None => default
    }
  }

  /** `io::Result`-like outcome: a value or an error. */
  datatype Result<+T, +E> = Ok(value: T) | Err(error: E)
}
