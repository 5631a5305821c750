/** A value that may be missing: the model's stand-in for pandas' NaN and NaT. */
module Wrappers {

  datatype Option<+T> = None | Some(value: T)
}
