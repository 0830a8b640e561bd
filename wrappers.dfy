/** Option values for results that the dashboard may not produce. */
module Wrappers {
  datatype Option<+T> = None | Some(value: T)
}
