/** The optional-value type shared by all modules. */
module Opt {
  datatype Option<+T> = None | Some(value: T)
}
