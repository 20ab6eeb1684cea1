/** The optional values of the source: JavaScript `null` results and missing JSON documents. */
module Wrappers {

  datatype Option<+T> = None | Some(value: T)
}
