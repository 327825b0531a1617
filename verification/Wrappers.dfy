/** Option and result types for missing values and raised exceptions. */
module Wrappers {
  datatype Option<+T> = None | Some(value: T)

  /** What the Python code raises where it does not return. */
  datatype Error =
    | MissingKey        // KeyError
    | BadContainer      // TypeError or AttributeError: a path steps into the wrong kind of container
    | BadIndex          // IndexError
    | Unsupported       // SystemExit

  datatype Result<+T> = Success(value: T) | Failure(error: Error) {
    predicate IsFailure() {
      Failure?
    }

    function PropagateFailure<U>(): Result<U>
      requires Failure?
    {
      Failure(error)
    }

    function Extract(): T
      requires Success?
    {
      value
    }
  }
}
