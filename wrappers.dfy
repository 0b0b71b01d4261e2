/** Failure-compatible wrappers shared by the whole model: Python's `None`-or-value results
    and the exceptions the modelled code raises or catches. */
module Wrappers {

  datatype Option<+T> = None | Some(value: T) {
    predicate IsFailure() { None? }

    function PropagateFailure<U>(): Option<U>
      requires None?
    {
      None
    }

    function Extract(): T
      requires Some?
    {
      value
    }

    function GetOr(default: T): T {
      match this
      case Some(v) => v
      case None => default
    }
  }

  /** The Python exceptions the modelled code can raise. */
  datatype Error =
    | KeyError        // `d[k]` on a missing key
    | IndexError      // `s[i]` out of range
    | TypeError       // an operation applied to a value of the wrong type
    | AttributeError  // `getattr`/`setattr` on an object without that attribute
    | AssertionError  // a failed `assert`
    | ValueError      // an argument out of the accepted range
    | Reraised        // `raise Exception(...)` wrapping any of the above

  datatype Result<+T> = Ok(value: T) | Err(error: Error) {
    predicate IsFailure() { Err? }

    function PropagateFailure<U>(): Result<U>
      requires Err?
    {
      Err(error)
    }

    function Extract(): T
      requires Ok?
    {
      value
    }
  }
}
