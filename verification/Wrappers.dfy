/** Optional values: `None` stands for the `null` that the Java code returns. */
module Wrappers {
  datatype Option<+T> = None | Some(value: T)
}
