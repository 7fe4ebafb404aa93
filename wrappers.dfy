/** The optional value used wherever the Java code returns null or throws a parse error. */
module Wrappers {

  datatype Option<+T> = None | Some(value: T)
}
