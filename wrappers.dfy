/** Option values, used for the parsers' failure signal. */
module Wrappers {
  datatype Option<+T> = None | Some(value: T)
}
