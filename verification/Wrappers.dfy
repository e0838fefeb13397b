/** The two result types used throughout: a field that may be absent, and an
    operation that may fail. */
module Wrappers {
  datatype Option<+T> = None | Some(value: T) {
    /** The contained value as a sequence of length 0 or 1. */
    function ToSeq(): seq<T> {
      match this
      case None => []
      case Some(v) => [v]
    }

    function GetOr(default: T): T {
      if Some? then value else default
    }
  }

  datatype Result<+T, +E> = Ok(value: T) | Err(error: E)
}
