/** Small shared vocabulary for the local-resolution model. */
module Basics {

  /** A value that may be absent. */
  datatype Option<+T> = None | Some(value: T)
}
