/** The optional values shared by the models. */
module Wrappers {

  /** A value that may be absent: the source's `null` and `undefined`. */
  datatype Option<+T> = None | Some(value: T)
}
