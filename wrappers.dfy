/** The optional-value datatype shared by the other modules. */
module Wrappers {

  /** A value that may be missing: JavaScript's `null`/`undefined` against a present value. */
  datatype Option<+T> = None | Some(value: T)
}
