/** The optional value used across the model. */
module Wrappers {

  /** A value that may be absent: `None` stands in for the `-1` that `str.find`
      returns when there is no occurrence, and for text that is not an integer. */
  datatype Option<+T> = None | Some(value: T)
}
