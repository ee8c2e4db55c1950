/** The conventional optional value, used where the source has a missing key or a nil result. */
module Options {
  datatype Option<+T> = None | Some(value: T)
}
