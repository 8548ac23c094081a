/** The optional-value wrapper used for fields a level file may leave out. */
module Wrappers {

  datatype Option<+T> = None | Some(value: T)
}
