/** Optional values: a result the bridge may or may not obtain (a decoded
    text, an `update_id`, a serialized update, a parsed envelope). */
module Wrappers {

  datatype Option<+T> = None | Some(value: T)
}
