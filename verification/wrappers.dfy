/** The optional-value datatype used for absent form fields and for the validator's verdict. */
module Wrappers {

  /** `None` for an absent value, `Some(v)` for a present one. */
  datatype Option<+T> = None | Some(value: T)
}
