/** How a call in the repository ends: with a value, or with one of its error codes. */
module Results {

  datatype Option<+T> = None | Some(value: T)

  /** The error codes of packages/core/src/errors.ts that the modelled code raises. */
  datatype Problem =
    | InvalidAmount
    | InvalidInput
    | LimitExceeded
    | Conflict
    | NotFound
    | Internal

  datatype Result<+T> = Success(value: T) | Failure(problem: Problem) {
    predicate IsFailure() {
      Failure?
    }

    function PropagateFailure<U>(): Result<U>
      requires Failure?
    {
      Failure(problem)
    }

    function Extract(): T
      requires Success?
    {
      value
    }
  }
}
