/** The optional result used wherever the source raises on bad input or an empty table. */
module Wrappers {

  datatype Option<+T> = None | Some(value: T)
}
