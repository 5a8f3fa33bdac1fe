/** The optional value returned by the matcher (Python's `None` or a string). */
module Wrappers {
  datatype Option<+T> = None | Some(value: T)
}
