/** The optional values of the model: a dev machine that may be absent, a macro set not yet created. */
module Wrappers {
  datatype Option<T> = None | Some(value: T)
}
