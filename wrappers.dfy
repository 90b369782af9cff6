/** Optional values: an absent JavaScript property, a JSON body that does not parse. */
module Wrappers {

  datatype Option<+T> = None | Some(value: T)
}
