/** A value that may be missing: a nullable column, or an optional payload block. */
module Wrappers {

  datatype Option<+T> = None | Some(value: T) {

    /** The source's `a ?? b`. */
    function GetOr(default: T): T {
      match this
      case Some(v) => v
      case None => default
    }

    /** The source's `a ?? b` where `b` may itself be missing. */
    function OrElse(other: Option<T>): Option<T> {
      if Some? then this else other
    }
  }
}
