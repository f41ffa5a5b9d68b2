/** Option and Result, the shapes Rust's `Option<T>` and `anyhow::Result<T>` take here. */
module Wrappers {

  datatype Option<+T> = None | Some(value: T)

  datatype Result<+R, +E> = Success(value: R) | Failure(error: E)
}
