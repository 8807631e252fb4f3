/** Optional values and results with an error, used across the model. */
module Wrappers {

  /** A value that may be absent: Python's `None` for an optional field. */
  datatype Option<+T> = None | Some(value: T) {

    /** The value, or `default` when absent. */
    function GetOr(default: T): T
    {
      if Some? then value else default
    }
  }

  /** A validation outcome: a value or the reason it was rejected. */
  datatype Result<+R, +E> = Ok(value: R) | Err(error: E)
}
