/** Option type used for every nullable field of the model. */
module Wrappers {
  datatype Option<+T> = None | Some(value: T)
}
