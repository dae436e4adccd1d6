/** Optional values, and operations that raise. */
module Outcomes {
  datatype Option<+T> = None | Some(value: T)

  /** A returned value, or the exception class that was raised instead. */
  datatype Result<+T> = Ok(value: T) | Raised(error: string)
}
