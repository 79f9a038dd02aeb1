/** A value or none, for the results of the other modules. */
module Wrappers {

  datatype Option<T> = None | Some(value: T)
}
