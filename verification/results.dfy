/**
  The two exceptions the categorization core can raise, as values.
 */
module Results {

  datatype Error =
    /** `CategorizationStrategyType.fromString` was given a name that is
        not a strategy (an `IllegalArgumentException`). */
    | UnknownStrategy(value: string)
    /** Two categories passed to the regex strategy share a known name
        (the `IllegalStateException` of `Collectors.toMap`). */
    | DuplicateKey(name: string)

  datatype Result<+T> = Success(value: T) | Failure(error: Error) {

    predicate IsFailure() {
      Failure?
    }

    function PropagateFailure<U>(): Result<U>
      requires Failure?
    {
      Failure(error)
    }

    function Extract(): T
      requires Success?
    {
      value
    }
  }
}
