/** A value that may be absent: Go's nil, or a call that panics. */
module Wrappers {

  datatype Option<+T> = None | Some(value: T)
}
