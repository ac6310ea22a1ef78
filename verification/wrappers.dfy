/** Optional values: `None` stands for JavaScript's `NaN` and `null` in this model. */
module Wrappers {
  datatype Option<+T> = None | Some(value: T)
}
