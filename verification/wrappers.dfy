/** The optional value that stands for Python's "a value or None" returns. */
module Wrappers {

  datatype Option<+T> = None | Some(value: T)
}
