/** The optional value that stands for the source's (value, ok) pairs, nil pointers and zero times. */
module Wrappers {
  datatype Option<+T> = None | Some(value: T)
}
