/** Option and Result values, used for JavaScript's `undefined` / `null`
    and for the errors the source catches. */
module Wrappers {

  datatype Option<+T> = None | Some(value: T) {
    /** The wrapped value, or `default` when there is none. */
    function GetOr(default: T): T {
      match this
      case Some(v) => v
      case None => default
    }
  }

  /** The outcome of an asynchronous operation that may reject. */
  datatype Result<+R, +E> = Success(value: R) | Failure(error: E)
}
