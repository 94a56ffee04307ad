/** The optional value used wherever the Go code returns a value together with `ok bool` or a nil. */
module Wrappers {

  datatype Option<+T> = None | Some(value: T)
}
