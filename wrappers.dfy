/** The conventional optional value: what Get returns in place of Go's (value, ok) pair. */
module Wrappers {

  datatype Option<+T> = None | Some(value: T)

}
