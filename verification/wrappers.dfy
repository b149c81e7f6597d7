/** Optional values and JavaScript-style exceptions. */
module Wrappers {

  /** Some/None, standing in for JavaScript's null and undefined. */
  datatype Option<+T> = None | Some(value: T)

  /** The outcome of a JavaScript call that may throw instead of returning. */
  datatype Attempt<+T> = Returned(value: T) | Threw
}
