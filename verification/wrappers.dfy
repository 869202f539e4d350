/** A value that may be missing: a missing cell of a table, or a lookup that failed. */
module Wrappers {

  datatype Option<+T> = None | Some(value: T) {

    /** The value if present, else the given default. */
    function GetOr(default: T): T
    {
      match this
      case Some(v) => v
      case None => default
    }
  }
}
