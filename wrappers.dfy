/** A value that may be missing: pandas' NaN / NaT. */
module Wrappers {
  datatype Option<+T> = None | Some(value: T)
}
