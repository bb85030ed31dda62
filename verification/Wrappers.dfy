/** Results that may be absent, as null pointers and sentinel values are in the source. */
module Wrappers {

  datatype Option<+T> = None | Some(value: T)
}
