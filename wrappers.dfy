/** Optional values, standing for JavaScript's `undefined`/`null` where the engine tests for them. */
module Wrappers {

  datatype Option<T> = None | Some(value: T)
}
