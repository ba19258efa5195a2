/** The optional value used for a missing input file and for a rejected line. */
module Wrappers {

  datatype Option<+T> = None | Some(value: T)

}
