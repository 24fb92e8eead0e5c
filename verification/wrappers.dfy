/** The optional values of the model: a JavaScript `null` or `undefined`
    (both treated alike by `??`, `||` and `!` in the modelled code) is `None`. */
module Wrappers {

  datatype Option<+T> = None | Some(value: T) {

    /** Returns the value in Some, or the default for None. */
    function GetOr(default: T): T {
      match this
      case Some(v) => v
      case None => default
    }
  }
}
