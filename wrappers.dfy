/** Java nullable references and exception-or-value results. */
module Wrappers {

  /** A Java reference that may be `null`. */
  datatype Maybe<+T> = Null | Some(value: T)

  /** The value a Java method returns, or the exception it throws. */
  datatype Result<+T, +E> = Ok(value: T) | Err(error: E) {

    predicate IsFailure() {
      Err?
    }

    function PropagateFailure<U>(): Result<U, E>
      requires Err?
    {
      Err(error)
    }

    function Extract(): T
      requires Ok?
    {
      value
    }
  }
}
