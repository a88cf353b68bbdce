/** The optional value used wherever the source returns None or raises instead of a result. */
module Wrappers {

  datatype Option<+T> = None | Some(value: T)

}
