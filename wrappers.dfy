/** Option and Result, the shapes the Rust code returns (`Option<T>`, `Result<T, E>`). */
module Wrappers {
  datatype Option<+T> = None | Some(value: T)

  datatype Result<+T, +E> = Ok(value: T) | Err(error: E)

  /**
   * How an `async fn` returning `Result<T, E>` ends: with its value, with an error,
   * or with a panic (an index out of bounds, an `unwrap` of `None`, a `todo!()`)
   * that aborts the running future.
   */
  datatype Outcome<+T, +E> = Success(value: T) | Failure(error: E) | Panic
}
