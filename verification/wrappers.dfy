/** The optional value used wherever the source reads a property that may be
    `undefined` (an environment variable, a JSON field, a completion). */
module Wrappers {

  datatype Option<+T> = None | Some(value: T)
}
