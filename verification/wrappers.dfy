/** The optional-value type used throughout the model for JavaScript's
    "absent" (`undefined`) next to a present value. */
module Wrappers {

  datatype Option<+T> = None | Some(value: T)
}
