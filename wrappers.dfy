/** Optional values and results with an error, as used throughout the model. */
module Wrappers {

  datatype Option<+T> = None | Some(value: T)

  datatype Result<+T, +E> = Ok(value: T) | Err(error: E)

  /** `x ?? fallback` and `x || fallback` over an absent value. */
  function GetOr<T>(o: Option<T>, fallback: T): T
  {
    match o
    case Some(v) => v
    case None => fallback
  }
}
