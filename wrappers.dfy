/** A nullable pointer or an absent value of the C++ code. */
module Wrappers {

  datatype Option<+T> = None | Some(value: T)
}
