/** Optional values and success/failure outcomes, the two shapes the
    application uses for `null`-able fields and for promises that may reject. */
module Wrappers {

  /** A value that may be absent (`null` / `undefined` in the application). */
  datatype Option<+T> = None | Some(value: T) {

    /** The carried value, or `default` when absent. */
    function GetOr(default: T): (r: T)
      ensures Some? ==> r == value
      ensures None? ==> r == default
    {
      match this
      case Some(v) => v
      case None => default
    }
  }

  /** The settled outcome of an asynchronous call: a value or an error. */
  datatype Result<+R, +E> = Success(value: R) | Failure(error: E)
}
