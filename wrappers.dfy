/** Option, for values that may be missing (a failed parse, a fault that does not happen). */
module Wrappers {
  datatype Option<+T> = None | Some(value: T)
}
