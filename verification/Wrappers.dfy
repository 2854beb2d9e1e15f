/** Optional values and outcomes with a typed error, shared by every module. */
module Wrappers {

  /** With `:-`, the first missing value of a sequence of steps is the outcome of all of them. */
  datatype Option<+T> = None | Some(value: T) {

    predicate IsFailure() {
      None?
    }

    function PropagateFailure<U>(): Option<U>
      requires None?
    {
      None
    }

    function Extract(): T
      requires Some?
    {
      value
    }
  }

  datatype Result<+T, +E> = Success(value: T) | Failure(error: E)
}
