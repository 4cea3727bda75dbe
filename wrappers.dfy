/** Optional values, used for the program's nullable strings. */
module Wrappers {

  /** `None` stands for a C# `null` reference, `Some(v)` for a non-null value `v`. */
  datatype Option<+T> = None | Some(value: T)
}
