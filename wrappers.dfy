/** Optional values: the model's stand-in for a pandas null (NaN / None). */
module Wrappers {
  datatype Option<+T> = None | Some(value: T)
}
