/** The optional value used for JavaScript `undefined` and SQL `NULL`. */
module Wrappers {

  datatype Option<+T> = None | Some(value: T)
}
