/** Rust's `Result<T, E>`: either a value or an error. */
module Outcome {
  datatype Result<+T, +E> = Ok(value: T) | Err(error: E)
}
