/** Optional values, standing for JavaScript's `null`/`undefined` where the
    widgets use them as "nothing here". */
module Wrappers {

  datatype Option<+T> = None | Some(value: T)
}
