/** Values that may be absent, shared by the modules that model nil. */
module Wrappers {
  datatype Option<+T> = None | Some(value: T)
}
