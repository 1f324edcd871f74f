/** Missing values and failed calls. */
module Wrappers {

  /** A table cell that may be missing (pandas NaN / None), or the outcome of a
      provider call that may raise (None). */
  datatype Option<+T> = None | Some(value: T)
}
