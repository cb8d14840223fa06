/** The absent-or-present value the components pass around (a JavaScript `null` or a value). */
module Wrappers {
  datatype Option<+T> = None | Some(value: T)
}
