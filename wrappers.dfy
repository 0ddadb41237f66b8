/** Python's `None` or a value, shared by every module of the engine. */
module Wrappers {

  datatype Option<+T> = None | Some(value: T)
}
