/** The conventional optional value, used wherever the server stores a pointer that may be null. */
module Options {
  datatype Option<+T> = None | Some(value: T)
}
