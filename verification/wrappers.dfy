/** The optional value used wherever the original program has `None`. */
module Wrappers {

  datatype Option<+T> = None | Some(value: T)
}
