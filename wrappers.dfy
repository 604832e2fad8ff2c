/** The optional values the viewer keeps where the Python code uses `None`. */
module Wrappers {
  datatype Option<+T> = None | Some(value: T)
}
