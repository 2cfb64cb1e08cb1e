/** Option, the shape Rust's `Option<T>` takes in this model. */
module Wrappers {

  datatype Option<+T> = None | Some(value: T)
}
