/** The optional-value type shared by the modules of this project. */
module Wrappers {

  /** A value that may be absent; `None` stands for PHP's NULL (or FALSE) result. */
  datatype Option<+T> = None | Some(value: T)
}
