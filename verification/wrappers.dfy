/** The optional-value type used for absent fields and parameters. */
module Wrappers {

  datatype Option<+T> = None | Some(value: T)
}
