/** The optional value used by the other modules for partial decodings. */
module Wrappers {
  datatype Option<+T> = None | Some(value: T)
}
