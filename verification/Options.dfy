/** A value that may be absent: the source's null pointers, where they are results. */
module Options {
  datatype Option<T> = None | Some(value: T)
}
