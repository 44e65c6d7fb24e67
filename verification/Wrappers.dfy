/** Option and Result, the two failure-carrying shapes the relay's Rust code uses. */
module Wrappers {

  /** Rust's `Option<T>`. */
  datatype Option<+T> = None | Some(value: T)

  /** Rust's `anyhow::Result<T>`, with the error message as the failure value. */
  datatype Result<+T, +E> = Success(value: T) | Failure(error: E)
}
