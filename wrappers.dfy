/** The optional value used for outcomes that may be absent: a failed parse, a missing row. */
module Wrappers {
  datatype Option<+T> = None | Some(value: T)
}
