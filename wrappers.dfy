/** The optional value used for Python's `None` returns and for inputs that may be absent. */
module Wrappers {

  datatype Option<+T> = None | Some(value: T)
}
