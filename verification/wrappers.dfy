/** Failure-compatible result type shared by the codec and the agreement model. */
module Wrappers {

  /** Either a value, or the error that aborted the computation. */
  datatype Result<+T, +E> = Ok(value: T) | Err(error: E) {

    /** True if this is an error, so that `:-` propagates it. */
    predicate IsFailure() {
      Err?
    }

    /** Re-types an error for propagation by `:-`. */
    function PropagateFailure<U>(): Result<U, E>
      requires Err?
    {
      Err(error)
    }

    /** The value carried by a success. */
    function Extract(): T
      requires Ok?
    {
      value
    }
  }
}
