/** The optional value used wherever the storefront reads `undefined`, `null`
    or a missing row: `None` is the absent case, `Some` carries the value. */
module Basics {

  datatype Option<+T> = None | Some(value: T) {

    /** The value, or `default` when absent (JavaScript's `x || default` on a
        value that is only ever falsy when missing). */
    function GetOr(default: T): T
    {
      match this
      case Some(v) => v
      case None => default
    }
  }
}
