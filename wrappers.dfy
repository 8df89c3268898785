/** The optional value that stands in for a C# `null` result. */
module Wrappers {
  datatype Option<+T> = None | Some(value: T)
}
