/** Option stands in for the nullable references of the source: None is null. */
module Wrappers {
  datatype Option<+T> = None | Some(value: T)
}
