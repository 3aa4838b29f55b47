/** The optional value returned where the Python code returns `None` or a value. */
module Wrappers {

  datatype Option<+T> = None | Some(value: T)
}
