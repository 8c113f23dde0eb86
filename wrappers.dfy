/** Failure-carrying wrappers shared by the whole model. */
module Wrappers {

  /** A value that may be absent: Go's nil pointer, a "not found", or a panic. */
  datatype Option<+T> = None | Some(value: T)
}
