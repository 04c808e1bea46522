/** Option, used for values that may be missing (an absent key, a failed parse). */
module Wrappers {
  datatype Option<+T> = None | Some(value: T)
}
