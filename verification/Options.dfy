/** A value that may be missing: the source's success flags and empty results. */
module Options {
  datatype Option<T> = None | Some(value: T)
}
