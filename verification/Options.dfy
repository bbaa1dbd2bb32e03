/** A value that may be missing: the library's null pointers and empty functions. */
module Options {

  datatype Option<+T> = None | Some(value: T)
}
