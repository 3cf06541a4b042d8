/** Java references may be null; `Option` stands for a possibly-null value. */
module Wrappers {

  datatype Option<+T> = None | Some(value: T)
}
