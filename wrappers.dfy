/** The optional value used wherever the Python code has `None` or swallows an exception. */
module Wrappers {

  datatype Option<+T> = None | Some(value: T)
}
