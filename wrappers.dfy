/** An optional value: the model of Python's `None`-or-value. */
module Wrappers {

  datatype Option<+T> = None | Some(value: T)
}
