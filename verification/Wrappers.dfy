/** The optional and fallible values that Go spells as nil, (value, bool) and (value, error). */
module Wrappers {
  datatype Option<+T> = None | Some(value: T)

  datatype Result<+T, +E> = Ok(value: T) | Err(error: E)
}
