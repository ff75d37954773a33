/** The values that the source's own `Option` takes. */
module Wrappers {
  datatype Option<T> = None | Some(value: T)
}
