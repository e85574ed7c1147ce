/** Ruby's `nil`-or-value, as an explicit optional value. */
module Wrappers {

  datatype Option<+T> = None | Some(value: T) {

    /** `opt || default`: the value when present, the default otherwise. */
    function GetOr(default: T): T {
      match this
      case Some(v) => v
      case None => default
    }
  }
}
