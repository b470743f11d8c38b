/** The optional value used for absent JSON properties and for parses that may fail. */
module Wrappers {
  datatype Option<+T> = None | Some(value: T)
}
