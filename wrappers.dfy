/** The optional-value type shared by the modules of this model. */
module Wrappers {

  /** A value that may be absent: Java's `null` and `Optional` both become `None`. */
  datatype Option<+T> = None | Some(value: T)
}
