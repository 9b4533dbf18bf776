/** The optional result both components use where the original returns `None`. */
module Wrappers {

  datatype Option<+T> = None | Some(value: T)

}
