/** The optional value used throughout the model: JavaScript's `undefined`,
    `null` and `NaN` all become `None` where the source can produce them. */
module Wrappers {

  datatype Option<+T> = None | Some(value: T) {

    /** The value, or `default` when there is none (JavaScript's `x || default`). */
    function GetOr(default: T): T {
      match this
      case Some(v) => v
      case None => default
    }
  }
}
