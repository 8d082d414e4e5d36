/** A value that may be missing: a null pointer, a search that found nothing. */
module Wrappers {
  datatype Option<T> = None | Some(value: T)
}
