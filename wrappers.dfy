/** The optional value used where the resolution engine answers "null". */
module Wrappers {
  datatype Option<+T> = None | Some(value: T)
}
