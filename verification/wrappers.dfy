/** An optional value: a key the backend reads with a default, or may find
    missing. */
module Wrappers {

  datatype Option<+T> = None | Some(value: T)
}
