/** Option type used for the null pointers the original code returns. */
module Wrappers {
  datatype Option<+T> = None | Some(value: T)
}
