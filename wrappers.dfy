/** Failure-compatible wrappers shared by the decoder and the client. */
module Wrappers {

  /** A value that may be absent; the model of Python's `X | None`. */
  datatype Option<+T> = None | Some(value: T)

  /** Either a value or the exception that a Python call would raise. */
  datatype Result<+T, +E> = Ok(value: T) | Err(error: E) {
    predicate IsFailure() { Err? }

    function PropagateFailure<U>(): Result<U, E>
      requires Err?
    {
      Err(error)
    }

    function Extract(): T
      requires Ok?
    {
      value
    }
  }
}
