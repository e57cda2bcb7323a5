/** Optional values, standing for the nullable references and `T?` results of the source. */
module Wrappers {

  datatype Option<+T> = None | Some(value: T)
}
