/** The optional-value datatype used for "no match" and "malformed input" results. */
module Wrappers {

  datatype Option<+T> = None | Some(value: T)
}
