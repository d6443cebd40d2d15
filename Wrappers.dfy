/** Optional values, results, and the Python exceptions the scraper can raise. */
module Wrappers {

  /** Python's `None` or a present value. */
  datatype Option<+T> = None | Some(value: T)

  /** The exception classes that the modelled code raises or catches. */
  datatype Error =
    | ValueError          // float(""), datetime(...) out of range, unmatched brace in a format string
    | TypeError           // comparing None with an int, a bad keyword argument
    | IndexError          // a list index out of range, a positional format field
    | KeyError            // a format field with no matching keyword argument
    | UnboundLocalError   // reading a local variable that was never assigned

  /** A value, or the exception that a Python call raised instead. */
  datatype Result<+T> = Success(value: T) | Failure(error: Error)
}
