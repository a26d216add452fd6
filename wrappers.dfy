/** The absence-or-value type shared by the whole model. */
module Wrappers {

  /** A value that may be absent, in place of JavaScript's null. */
  datatype Option<+T> = None | Some(value: T)
}
