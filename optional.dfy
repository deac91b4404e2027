/** A value that may be absent, as returned by a dictionary lookup or a scan. */
module Optional {
  datatype Option<T> = None | Some(value: T)
}
