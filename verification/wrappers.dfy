/** Optional values, standing in for Python's `None` and for a call that raised. */
module Wrappers {

  datatype Option<+X> = None | Some(value: X) {

    /** The value, or `default` when there is none (Python's `dict.get(key, default)`). */
    function GetOr(default: X): X {
      match this
      case Some(v) => v
      case None => default
    }
  }
}
