/** Optional values, shared by the other modules. */
module Wrappers {

  /** `None` stands for Python's `None` (an unknown user, a failed login) and for
      a line that `int(...)` cannot parse. */
  datatype Option<+T> = None | Some(value: T)
}
