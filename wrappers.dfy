/** Optional values: `None` stands for a SQL NULL / a missing dataframe cell. */
module Wrappers {

  datatype Option<+T> = None | Some(value: T)
}
