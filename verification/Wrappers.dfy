/** The Option type: Python's None-or-value, and the outcome of a call that may raise. */
module Wrappers {

  datatype Option<+T> = None | Some(value: T)
}
