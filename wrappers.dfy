/** The optional value used for absent records and absent properties. */
module Wrappers {

  datatype Option<+T> = None | Some(value: T)
}
