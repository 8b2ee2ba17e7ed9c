/** Shared vocabulary of the model. */
module Basics {

  /** A nullable column, an optional field or an optional argument. */
  datatype Option<+T> = None | Some(value: T) {
    function GetOr(default: T): T {
      match this
      case Some(v) => v
      case None => default
    }
  }
}
