/** Values that may be absent. Source errors carry text that no caller branches on, so a failed
    call is modelled by an absent result. */
module Wrappers {
  datatype Option<+T> = None | Some(value: T)
}
