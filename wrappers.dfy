/** The optional values that the client reads from the backend's JSON replies. */
module Wrappers {

  /** A key that may be missing from a JSON object (or a value that may be None). */
  datatype Option<+T> = None | Some(value: T) {

    /** The value, or `default` when it is missing (Python's `dict.get(key, default)`). */
    function GetOr(default: T): (r: T)
      ensures Some? ==> r == value
      ensures None? ==> r == default
    {
      match this
      case Some(v) => v
      case None => default
    }
  }
}
