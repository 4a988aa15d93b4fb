/** A missing value. In the feature pipeline a pandas cell that holds NaN is `None`. */
module Wrappers {

  datatype Option<+T> = None | Some(value: T)
}
