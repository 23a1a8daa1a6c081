/** Results that may be absent: the null pointers and error returns of the C code. */
module Options {
  datatype Option<+T> = None | Some(value: T)
}
