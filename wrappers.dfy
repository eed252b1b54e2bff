/** The optional value used wherever a JavaScript property may be `undefined`. */
module Wrappers {

  datatype Option<+T> = None | Some(value: T)

}
