/** Optional values: a C# `null`, a JavaScript `undefined`. */
module Wrappers {

  datatype Option<+T> = None | Some(value: T)
}
