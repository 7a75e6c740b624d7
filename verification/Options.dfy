/**
 A result that may be missing: a null pointer, a -1, an entry that is not there.
 */
module Options {
  datatype Option<T> = None | Some(value: T)
}
