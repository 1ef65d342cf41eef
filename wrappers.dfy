/** The optional-value and outcome datatypes shared by the whole model. */
module Wrappers {

  /** A value that may be absent: a missing dictionary key, a parse that failed. */
  datatype Option<+T> = None | Some(value: T)

  /** The outcome of an operation that the source lets raise: the exception becomes `Failure`. */
  datatype Result<+T> = Success(value: T) | Failure(error: string)

  /** `d.get(k, default)` once the lookup has given `o`. */
  function GetOr<T>(o: Option<T>, default: T): (r: T)
    ensures o.Some? ==> r == o.value
    ensures o.None? ==> r == default
  {
    match o
    case Some(v) => v
    case None => default
  }
}
