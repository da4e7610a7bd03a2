/** The optional value used for a query that may fail and for parsing. */
module Wrappers {

  datatype Option<T> = None | Some(value: T)
}
