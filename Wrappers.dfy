/** Optional values, standing for Python's `None`-or-value (`Optional[str]`). */
module Wrappers {

  datatype Option<+T> = None | Some(value: T)
}
