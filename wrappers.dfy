/** Option, for the Python results that may be `None` or may raise. */
module Wrappers {

  datatype Option<+T> = None | Some(value: T)

}
