/** The Some/None datatype used for values the source leaves as `None`. */
module Wrappers {
  datatype Option<+T> = None | Some(value: T)
}
