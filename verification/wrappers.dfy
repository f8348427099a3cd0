/** Failure-carrying datatypes used throughout the model: an absent value
    (a C# `null`), a value-or-exception, and a pass-or-exception outcome. */
module Wrappers {

  /** A possibly-null reference: `None` plays the part of C#'s `null`. */
  datatype Option<+T> = None | Some(value: T)

  /** The result of a C# call that either returns a value or throws. */
  datatype Result<+R, +E> = Success(value: R) | Failure(error: E) {
    predicate IsFailure() {
      Failure?
    }

    function PropagateFailure<U>(): Result<U, E>
      requires Failure?
    {
      Failure(error)
    }

    function Extract(): R
      requires Success?
    {
      value
    }
  }

  /** The result of a C# `void` call: it returns normally or throws. */
  datatype Outcome<+E> = Pass | Fail(error: E)
}
