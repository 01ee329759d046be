/** The optional value used where the Java code returns or accepts `null`. */
module Wrappers {

  datatype Option<+T> = None | Some(value: T)
}
