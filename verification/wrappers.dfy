/** The Some/None datatype used for Ruby's nil and for absent hash keys. */
module Wrappers {

  datatype Option<T> = None | Some(value: T) {

    /** The held value, or `default` for None (Ruby's `x || default`). */
    function GetOr(default: T): T {
      match this
      case Some(v) => v
      case None => default
    }
  }
}
