/** The optional-value datatype used wherever the modelled code returns an
    `Option` or unwraps a possibly-missing value. */
module Wrappers {

  datatype Option<+T> = None | Some(value: T)
}
