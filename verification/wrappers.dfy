/** The Option datatype used across the model for "maybe a value". */
module Wrappers {

  datatype Option<+T> = None | Some(value: T)
}
