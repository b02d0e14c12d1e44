/** A value that may be absent: JavaScript's `undefined` field or a regex group that did not take part. */
module Wrappers {

  datatype Option<+T> = None | Some(value: T)
}
