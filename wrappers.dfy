/** The optional value used wherever the bot reads a key that may be missing. */
module Wrappers {
  datatype Option<+T> = None | Some(value: T)
}
