/** The optional-value datatype shared by the decoders and the login model. */
module Wrappers {

  /** A value that may be absent, as `undefined` or `null` is in the login code. */
  datatype Option<+T> = None | Some(value: T)
}
