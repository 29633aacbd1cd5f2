/** Option and Result values used across the model for Go's nil pointers
    and its (value, error) returns, and Completion for code that can stop
    on a nil-pointer dereference. */
module Wrappers {
  datatype Option<+T> = None | Some(value: T)
  datatype Result<+T, +E> = Ok(value: T) | Err(error: E)

  /** How a Go call ends: it returns its value, or it dereferences a nil
      pointer and panics. */
  datatype Completion<+T> = Returned(value: T) | NilDereference
}
