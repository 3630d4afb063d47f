/** The optional value that stands for a Go pointer or error that may be `nil`. */
module Wrappers {

  datatype Option<+T> = None | Some(value: T)
}
