/** The optional value used for the source's `None`-or-value fields. */
module Wrappers {
  datatype Option<T> = None | Some(value: T)
}
