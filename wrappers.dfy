/** Optional values: `None` stands for a Python lookup that raises or finds nothing. */
module Wrappers {

  datatype Option<+T> = None | Some(value: T)
}
