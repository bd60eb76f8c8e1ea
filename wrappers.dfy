/** Optional values and results with an error, standing for Python's `None`
    and for an exception that aborts the current operation. */
module Wrappers {

  datatype Option<+T> = None | Some(value: T)

  datatype Result<+T, +E> = Ok(value: T) | Err(error: E)
}
