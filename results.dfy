/** Wrappers for values that may be missing and for awaited calls that may throw. */
module Results {

  /** A value that JavaScript may leave `undefined`. */
  datatype Option<+T> = None | Some(value: T)

  /** The outcome of an awaited call: the value it settled with (Ok), or the
      `message` of the Error it threw (Err). Failure-compatible, so `:-`
      propagates a thrown error the way `await` inside a `try` block does. */
  datatype Result<+T> = Ok(value: T) | Err(message: string) {

    predicate IsFailure() {
      Err?
    }

    function PropagateFailure<U>(): Result<U>
      requires Err?
    {
      Err(message)
    }

    function Extract(): T
      requires Ok?
    {
      value
    }
  }
}
