/** An optional value type shared by the model. */
module Wrappers {

  /** An optional value: `None` when a search finds nothing. */
  datatype Option<+T> = None | Some(value: T)
}
