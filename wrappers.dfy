/** Option and Result values used for the absent values and thrown errors of the model. */
module Wrappers {

  datatype Option<+T> = None | Some(value: T) {

    /** The value, or `default` when absent (JavaScript's `x || default` on an optional). */
    function GetOr(default: T): T {
      if Some? then value else default
    }
  }

  /** Ok carries a result; Err carries what the JavaScript code throws or reports. */
  datatype Result<+T, +E> = Ok(value: T) | Err(error: E)
}
