/** The optional value used where the program returns a nullable reference (`T?`). */
module Wrappers {

  datatype Option<+T> = None | Some(value: T)

}
