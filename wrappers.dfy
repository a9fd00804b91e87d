/** The optional value used for fields that may be absent and for an answer that may not arrive. */
module Wrappers {

  datatype Option<+T> = None | Some(value: T)
}
