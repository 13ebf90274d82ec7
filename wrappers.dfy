/** An optional value, as the source's `T | null` and conditional rendering. */
module Wrappers {
  datatype Option<+T> = None | Some(value: T)
}
