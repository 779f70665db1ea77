/** Optional values, standing for JavaScript's `undefined` where the app
    indexes past the end of a pose list. */
module Wrappers {

  datatype Option<+T> = None | Some(value: T)
}
