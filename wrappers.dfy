/** The optional-value datatype shared by the parsers and the pattern matcher. */
module Wrappers {

  datatype Option<+T> = None | Some(value: T)
}
