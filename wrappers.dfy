/** Option and Result, the return shapes the lookup tool uses for "no value" and "error". */
module Wrappers {
  datatype Option<+T> = None | Some(value: T)

  datatype Result<+T, +E> = Ok(value: T) | Err(error: E)
}
