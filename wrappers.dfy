/** Option and Result values that stand for Python's `None` and for the
    exceptions the detector raises and does not catch. */
module Wrappers {
  datatype Option<+T> = None | Some(value: T)

  datatype Result<+T, +E> = Ok(value: T) | Err(error: E)
}
