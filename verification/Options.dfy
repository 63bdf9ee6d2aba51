/** Values that may be absent: C's NULL pointers and unset ids. */
module Options {

  datatype Option<+T> = None | Some(value: T)
}
