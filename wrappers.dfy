/** Optional values and results with an error, as the analyzer's dictionary
    lookups with defaults and its exceptions need them. */
module Wrappers {

  /** A value that may be absent, such as a key missing from a JSON mapping. */
  datatype Option<+T> = None | Some(value: T) {

    /** The value, or `default` when absent: Python's `dict.get(key, default)`. */
    function GetOr(default: T): T {
      match this
      case Some(v) => v
      case None => default
    }
  }

  /** The outcome of an operation that either returns a value or raises. */
  datatype Result<+R, +E> = Success(value: R) | Failure(error: E)
}
