/** The absent-or-present value used wherever the source reads an optional
    field (`x ?? default`), gets `null` back from a helper, or gets `NaN`
    from `parseInt`. */
module Wrappers {

  datatype Option<+T> = None | Some(value: T) {

    /** The value, or `default` when absent (JavaScript's `x ?? default`). */
    function GetOr(default: T): T {
      match this
      case Some(v) => v
      case None => default
    }
  }
}
