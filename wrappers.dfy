/** Optional values: the model's rendering of the source's `null` results. */
module Wrappers {

  datatype Option<T> = None | Some(value: T)

}
