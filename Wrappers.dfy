/** A value that may be absent; stands for a nullable C# string. */
module Wrappers {
  datatype Option<+T> = None | Some(value: T)
}
