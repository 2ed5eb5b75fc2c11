/** Small value wrappers shared by the whole model. */
module Wrappers {

  /** A value that may be absent (`null` / `undefined` in the source). */
  datatype Option<+T> = None | Some(value: T)

  /** How a promise settled: fulfilled with a value, or rejected. */
  datatype Settled<+T> = Fulfilled(value: T) | Rejected
}
