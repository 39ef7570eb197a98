/** The conventional optional value, used for nullable columns and query results. */
module Wrappers {
  datatype Option<+T> = None | Some(value: T)
}
