/** The optional value used where a per-user reduction has nothing to reduce. */
module Wrappers {

  datatype Option<+T> = None | Some(value: T)
}
