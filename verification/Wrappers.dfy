/** The conventional optional value: an absent field, a missing key, an infinite bound. */
module Wrappers {
  datatype Option<+T> = None | Some(value: T)
}
