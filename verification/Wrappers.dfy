module Wrappers {
  datatype Option<+X> = None | Some(value: X)
}
