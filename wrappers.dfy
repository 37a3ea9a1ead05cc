/** The optional value used wherever the task board has `null` or a cancelled dialog. */
module Wrappers {
  datatype Option<+T> = None | Some(value: T)
}
