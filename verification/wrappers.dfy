/** Optional values, used for children that a grammar rule may or may not have and for
    symbol-table lookups that may fail. */
module Wrappers {

  datatype Option<+T> = None | Some(value: T)
}
