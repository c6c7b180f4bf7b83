/** The optional value used for results that may be absent (a failed call, an unparsable id). */
module Wrappers {

  datatype Option<+T> = None | Some(value: T)
}
