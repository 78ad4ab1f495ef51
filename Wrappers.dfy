/** Results of operations that can throw, and of lookups that can answer `null`. */
module Wrappers {

  /** The Java exception an operation ends with. */
  datatype Error =
    | IllegalArgument       // IllegalArgumentException
    | IndexOutOfBounds      // IndexOutOfBoundsException / ArrayIndexOutOfBoundsException
    | NullPointer           // NullPointerException
    | UnsupportedOperation  // UnsupportedOperationException
    | StackOverflow         // StackOverflowError from a recursion without a base case
    | NegativeArraySize     // NegativeArraySizeException

  datatype Result<+T> = Success(value: T) | Failure(error: Error)
  {
    predicate IsFailure() { Failure? }

    function PropagateFailure<U>(): Result<U>
      requires Failure?
    {
      Failure(error)
    }

    function Extract(): T
      requires Success?
    {
      value
    }
  }

  /** A reference that may be `null`. */
  datatype Option<+T> = None | Some(value: T)
}
