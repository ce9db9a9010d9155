/** Option and Result: Python's `None`-or-value and value-or-exception outcomes. */
module Wrappers {

  /** A nullable value: SQL NULL / Python None, or a present value. */
  datatype Option<+T> = None | Some(value: T) {

    /** Python's `x or default` for a nullable column value. */
    function GetOr(default: T): T {
      match this
      case Some(v) => v
      case None => default
    }
  }

  /** The outcome of an operation that can raise instead of returning. */
  datatype Result<+T, +E> = Success(value: T) | Failure(error: E)
}
