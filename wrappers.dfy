/** The optional value used for absent dictionary keys, missing form fields and raised exceptions. */
module Wrappers {
  datatype Option<+T> = None | Some(value: T)
}
