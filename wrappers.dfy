/** The optional-value datatype used for table keys and iterator results. */
module Wrappers {

  datatype Option<+T> = None | Some(value: T)
}
