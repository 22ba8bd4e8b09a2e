/** Optional values: a GLib function that returns a pointer or NULL becomes a function
    returning an Option. */
module Wrappers {

  datatype Option<+T> = None | Some(value: T)
}
