/** Optional values: a C null pointer, a dropped packet, a JavaScript NaN offset. */
module Wrappers {

  datatype Option<+T> = None | Some(value: T)

}
