/** The optional value used for nullable document fields and missing lookups. */
module Wrappers {
  datatype Option<+T> = None | Some(value: T)
}
