/** An optional value: the `None` of the Python modules, or an unset protobuf message. */
module Wrappers {
  datatype Option<+T> = None | Some(value: T)
}
