/** Optional values: the model's stand-in for JavaScript's `undefined` and `NaN`. */
module Wrappers {

  /** `None` plays `undefined` (a missing account or cache) or `NaN` (an unparsable number). */
  datatype Option<+T> = None | Some(value: T)
}
