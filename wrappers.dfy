/** The optional-value datatype used by the parsing functions of this model. */
module Wrappers {

  datatype Option<+T> = None | Some(value: T)
}
