/** Optional values and results, used for JavaScript `undefined` and for the
    outcomes of foreign calls. */
module Wrappers {

  /** `None` stands for JavaScript `undefined` (an absent body field or key). */
  datatype Option<+T> = None | Some(value: T) {
    function GetOr(default: T): T {
      match this
      case Some(v) => v
      case None => default
    }
  }

  datatype Result<+R, +E> = Success(value: R) | Failure(error: E)
}
