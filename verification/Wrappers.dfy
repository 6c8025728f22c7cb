/** The one result wrapper the models share: a value, or the absence of one. */
module Wrappers {

  datatype Option<+T> = None | Some(value: T)
}
