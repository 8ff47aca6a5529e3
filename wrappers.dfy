/** An optional value: the model's stand-in for a JavaScript property that may be `undefined`. */
module Wrappers {

  datatype Option<+T> = None | Some(value: T) {

    /** The carried value, or `default` when there is none (JavaScript's `x ?? default`). */
    function GetOr(default: T): T {
      match this
      case Some(v) => v
      case None => default
    }
  }
}
