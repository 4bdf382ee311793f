/** The optional value used wherever the script falls back on `null` or a failed regex match. */
module Wrappers {

  datatype Option<+T> = None | Some(value: T)
}
