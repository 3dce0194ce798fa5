/** The optional value of a Python lookup that may find nothing (`dict.get`, `manifest.category`). */
module Wrappers {

  datatype Option<+T> = None | Some(value: T) {

    /** The value, or `default` when there is none (Python's `x or default` on a lookup). */
    function GetOr(default: T): T {
      if Some? then value else default
    }
  }
}
