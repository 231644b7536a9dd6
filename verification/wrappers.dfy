/** Option and Result: the shapes every fallible operation of the model returns
    in place of a null field or a thrown error / HTTP error response. */
module Wrappers {

  /** An optional value: a field that may be null, a lookup that may miss. */
  datatype Option<+T> = None | Some(value: T)
  {
    /** The value, or `default` when there is none. */
    function GetOr(default: T): T
    {
      match this
      case Some(v) => v
      case None => default
    }
  }

  /** The outcome of an operation that either succeeds with a value or is
      rejected with an error before changing anything. */
  datatype Result<+T, +E> = Ok(value: T) | Err(error: E)
}
