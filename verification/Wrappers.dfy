// Values that may be absent: the source's NULL pointers and empty results.
module Wrappers {
  datatype Option<+T> = None | Some(value: T)
}
