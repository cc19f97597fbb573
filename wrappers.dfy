/** The optional value used for Java's `null` and `Optional.empty()`. */
module Wrappers {

  datatype Option<+T> = None | Some(value: T)
}
