/** Optional values, standing for Python's `None` versus a present value. */
module Wrappers {

  datatype Option<+T> = None | Some(value: T) {

    /** The present value, or `default` when there is none. */
    function GetOr(default: T): T
    {
      match this
      case Some(v) => v
      case None => default
    }
  }
}
