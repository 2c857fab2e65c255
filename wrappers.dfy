// The optional value used wherever the renderer has an "absent" or
// "not a number" outcome.
module Wrappers {

  datatype Option<T> = None | Some(value: T)
}
