/** An optional value: None stands for the outcome where the source throws. */
module Wrappers {
  datatype Option<T> = None | Some(value: T)
}
