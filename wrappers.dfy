/** Option, for JavaScript values that may be null or undefined. */
module Wrappers {

  datatype Option<+T> = None | Some(value: T) {

    /** `x || default` for a value whose only falsy form is absence. */
    function GetOr(default: T): T
    {
      match this
      case Some(v) => v
      case None => default
    }
  }
}
