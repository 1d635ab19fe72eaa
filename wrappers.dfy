/** The optional value used where the source returns Rust's `Option`. */
module Wrappers {

  datatype Option<+T> = None | Some(value: T)
}
