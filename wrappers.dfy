/** The conventional optional value, used for the mismatch sink and for counts of absent lists. */
module Wrappers {
  datatype Option<+T> = None | Some(value: T)
}
