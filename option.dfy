/** Absence as a value: what the Python code expresses with `None`, a missing element or a
    missing dictionary key. */
module Opt {
  datatype Option<+T> = None | Some(value: T) {
    function GetOr(default: T): T {
      match this
      case Some(v) => v
      case None => default
    }
  }

  /** The end of a Python call that can raise: it either raised or returned a value. */
  datatype Outcome<+T> = Raised | Returned(value: T)
}
