/** The optional and the fallible values shared by every component. */
module Wrappers {

  /** A nullable column or a lookup that may miss. */
  datatype Option<+T> = None | Some(value: T) {
    function GetOr(default: T): T {
      match this
      case Some(v) => v
      case None => default
    }
  }

  /** A call that returns or throws. */
  datatype Outcome<+T, +E> = Ok(value: T) | Threw(error: E)
}
