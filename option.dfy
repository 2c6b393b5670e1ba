/** A value that may be absent: a nil slice, a failed stat, a failed path lookup. */
module Opt {
  datatype Option<+T> = None | Some(value: T)
}
