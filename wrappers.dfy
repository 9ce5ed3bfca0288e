/** Optional values. In this model `None` also stands for a JavaScript `null`,
    an absent key, or (for numbers) `NaN`, as each use site says. */
module Wrappers {

  datatype Option<+T> = None | Some(value: T)
}
