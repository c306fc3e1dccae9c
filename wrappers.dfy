/** Failure-compatible result type: None stands for a panic of the original program. */
module Wrappers {
  datatype Option<+T> = None | Some(value: T)
}
