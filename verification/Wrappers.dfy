/** The option type that every module uses for a value that may be missing. */
module Wrappers {
  datatype Option<+T> = None | Some(value: T)
}
