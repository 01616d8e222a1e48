/** The optional-value datatype used by the searches and parsers of this model. */
module Wrappers {

  datatype Option<+T> = None | Some(value: T)
}
