/** The optional values of the batch logic: `undefined` fields and failed lookups. */
module Wrappers {

  datatype Option<+T> = None | Some(value: T)
}
