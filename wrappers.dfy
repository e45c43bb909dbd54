/** The optional value used where the source returns None or skips a record. */
module Wrappers {

  datatype Option<+T> = None | Some(value: T)

}
