/** Small helper datatype shared by the other modules. */
module Wrappers {

  /** A value that may be missing: Go's nil slice, an unset body, a failed decode. */
  datatype Option<+T> = None | Some(value: T)
}
