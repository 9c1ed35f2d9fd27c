/** The optional value used for the component's nullable state (`cropStart`, `cropEnd`). */
module Wrappers {
  datatype Option<+T> = None | Some(value: T)
}
