/** Optional values: JavaScript's null / undefined on one side, a value on the other. */
module Wrappers {

  datatype Option<+T> = None | Some(value: T) {

    /** The value, or `default` when there is none (JavaScript's `x ?? default`). */
    function GetOr(default: T): T {
      match this
      case Some(v) => v
      case None => default
    }

    /** JavaScript's `a || b` on two optional references: the first one that is present. */
    function OrElse(other: Option<T>): Option<T> {
      if Some? then this else other
    }
  }
}
