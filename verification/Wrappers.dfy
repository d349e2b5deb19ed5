// The option type shared by all models.
module Wrappers {
  datatype Option<+T> = None | Some(value: T)
}
