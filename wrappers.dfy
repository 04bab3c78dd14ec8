/** The optional value used for TypeScript's `T | undefined` and `field?: T`. */
module Wrappers {
  datatype Option<+T> = None | Some(value: T)
}
