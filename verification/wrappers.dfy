/** Optional values: the model of Swift's `T?`. */
module Wrappers {

  /** `None` plays Swift's `nil`; `Some(v)` a present value. */
  datatype Option<+T> = None | Some(value: T) {

    /** The wrapped value, or `default` when absent (Swift's `x ?? default`). */
    function GetOr(default: T): T {
      match this
      case Some(v) => v
      case None => default
    }
  }
}
