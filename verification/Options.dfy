/** A value or nothing, for pointers that may be null and identifiers that may be unset. */
module Options {
  datatype Option<+T> = None | Some(value: T)
}
