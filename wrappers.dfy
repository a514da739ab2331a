/** Option, Result and Outcome: the shapes of Rust's `Option<T>`, `Result<T, Error>` and
    `Result<(), Error>` as they appear in the navigation core. */
module Wrappers {

  datatype Option<+T> = None | Some(value: T)

  datatype Result<+T, +E> = Ok(value: T) | Err(error: E)

  /** The outcome of a fallible operation that returns no value (`Result<(), Error>`). */
  datatype Outcome<+E> = Pass | Fail(error: E)
}
