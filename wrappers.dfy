// Option and Result types shared by every module of the model.
module Wrappers {

  /** An optional value; `None` models Go's nil (a nil slice, a nil pointer, an absent option). */
  datatype Option<+T> = None | Some(value: T)

  /** The `(value, error)` pair Go functions return: exactly one side is meaningful. */
  datatype Result<+T, +E> = Ok(value: T) | Err(error: E)
}
