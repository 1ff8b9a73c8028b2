/** Option and Result, the two failure-carrying types the board code returns. */
module Wrappers {

  datatype Option<+T> = None | Some(value: T)

  /** A Rust `Result`; `:-` plays the role of the `?` operator. */
  datatype Result<+T, +E> = Ok(value: T) | Err(error: E) {

    predicate IsFailure() {
      Err?
    }

    function PropagateFailure<U>(): Result<U, E>
      requires Err?
    {
      Err(error)
    }

    function Extract(): T
      requires Ok?
    {
      value
    }
  }
}
