/** The Some/None datatype used in place of the source's nullable references. */
module Wrappers {

  datatype Option<+T> = None | Some(value: T)
}
