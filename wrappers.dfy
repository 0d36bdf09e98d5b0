/** The optional value used where the source returns nothing or an optional reference. */
module Wrappers {

  datatype Option<+T> = None | Some(value: T)
}
