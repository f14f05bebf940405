/** An optional value, for the source's `x || undefined` and `list[0] || undefined` lookups. */
module Wrappers {

  datatype Option<+T> = None | Some(value: T)
}
