// Option and Result, the two wrappers the Rust code uses for missing values
// and error returns.
module Wrappers {
  datatype Option<T> = None | Some(value: T)

  datatype Result<T, E> = Ok(value: T) | Err(error: E)
}
