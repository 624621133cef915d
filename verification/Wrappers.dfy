/** Values that may be absent: a nil pointer, an error-free result, an empty slot. */
module Wrappers {

  datatype Option<+T> = None | Some(value: T) {
    function GetOr(default: T): T {
      if Some? then value else default
    }
  }
}
