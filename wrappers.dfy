/** The optional values the scripts produce: `null`, `undefined` and `NaN` all become `None`. */
module Wrappers {

  datatype Option<+T> = None | Some(value: T)

  /** A call that either returns a value or throws (the exception's payload is not modelled). */
  datatype Outcome<+T> = Returned(value: T) | Threw
}
