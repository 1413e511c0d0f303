/** Small value wrappers shared by the whole model. */
module Wrappers {

  /** A value that may be absent: a missing map entry, a ray that hits nothing,
      or an IEEE NaN (which compares false against everything). */
  datatype Option<+T> = None | Some(value: T) {
    function GetOr(default: T): T {
      match this
      case Some(v) => v
      case None => default
    }
  }

  /** An optional output argument of a C++ routine: `Null` when the caller
      passed `nullptr`, otherwise the pointee's current content. */
  datatype Out<+T> = Null | Ptr(value: T)
}
