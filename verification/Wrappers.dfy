// Option and Result, used wherever the code returns nil, a second `ok` value or an error.
module Wrappers {
  datatype Option<+T> = None | Some(value: T)

  datatype Result<+T, +E> = Ok(value: T) | Err(error: E)
}
