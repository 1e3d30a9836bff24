/** The optional result of a lookup (a nil pointer in the modelled program). */
module Wrappers {

  datatype Option<+T> = None | Some(value: T)
}
