/** The exceptions the record machinery raises, and a failure-compatible
    Result type so that `:-` propagates the first one raised. */
module Results {

  /** One constructor per exception the modelled code can raise. */
  datatype Error =
      /** ValueError: a positional mapping together with keywords, or two positionals. */
    | AmbiguousArguments
      /** AttributeError: `.get` called on something that is not a dict. */
    | NoGetAttribute
      /** TypeError: `for` or `tuple()` over a number, a boolean or None. */
    | NotIterable
      /** TypeError: `**` applied to something that is not a dict. */
    | NotKeywordMapping
      /** TypeError: the tuple constructor was given a keyword that is not a field. */
    | UnexpectedKeyword
      /** AttributeError("can't set attribute") from a sealed IP address. */
    | CannotSetAttribute
      /** AttributeError: deleting an attribute that is not there. */
    | NoSuchAttribute

  datatype Result<+T> = Success(value: T) | Failure(error: Error) {

    predicate IsFailure() {
      Failure?
    }

    function PropagateFailure<U>(): Result<U>
      requires Failure?
    {
      Failure(error)
    }

    function Extract(): T
      requires Success?
    {
      value
    }
  }
}
