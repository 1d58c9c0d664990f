/** Small shared datatypes: an optional value, used wherever the source has a
    nullable pointer, a boolean "found" flag with an out-parameter, or a
    NullableString16. */
module Wrappers {

  datatype Option<+T> = None | Some(value: T) {
    function GetOr(default: T): T {
      match this
      case Some(v) => v
      case None => default
    }
  }
}
