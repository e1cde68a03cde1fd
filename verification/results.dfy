/** The outcome of a wallet call: either the new value or the reason the call
    reverted. A reverted call leaves the wallet as it was, so every operation
    returns the whole new state on success and only an error on failure. */
module Results {

  datatype Result<+T, +E> = Ok(value: T) | Err(error: E) {

    /** True if the call reverted */
    predicate IsFailure() {
      Err?
    }

    /** Carries the error of a reverted call over to a different value type */
    function PropagateFailure<U>(): Result<U, E>
      requires Err?
    {
      Err(error)
    }

    /** The value of a call that succeeded */
    function Extract(): T
      requires Ok?
    {
      value
    }
  }
}
