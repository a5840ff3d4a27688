/** Optional values: the model's counterpart of a null pointer or an empty `Optional`. */
module Wrappers {

  datatype Option<+T> = None | Some(value: T)
}
