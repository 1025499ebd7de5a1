/** Failure-compatible wrappers shared by every module of the model. */
module Wrappers {

  /** A value that may be absent: Python's `Optional[T]` (None or a value). */
  datatype Option<+T> = None | Some(value: T) {
    function GetOr(default: T): T {
      match this
      case Some(v) => v
      case None => default
    }
  }

  /** The outcome of a Python call that either returns a value or raises. */
  datatype Result<+R, +E> = Success(value: R) | Failure(error: E) {
    predicate IsFailure() {
      Failure?
    }

    function PropagateFailure<U>(): Result<U, E>
      requires Failure?
    {
      Failure(error)
    }

    function Extract(): R
      requires Success?
    {
      value
    }
  }

  /** The Python exceptions the modelled code can raise, by kind. */
  datatype Exception =
    | ValueError      // a failed `int(...)`/`float(...)`, `list.index`, tuple unpacking
    | KeyError        // a missing dictionary key
    | IndexError      // indexing past the end of a list
    | TypeError       // arithmetic on `None`
    | AssertionError  // a failed `assert`
    | RaisedError     // an explicit `raise Exception(...)`
}
