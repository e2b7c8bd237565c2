/** An optional value: a `Client` field that the record may leave undefined. */
module Wrappers {

  datatype Option<+T> = None | Some(value: T)
}
