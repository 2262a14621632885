/** The optional value used for every nullable Java reference in the model. */
module Wrappers {

  /** `None` stands for a Java `null`, `Some(v)` for a non-null value `v`. */
  datatype Option<+T> = None | Some(value: T)
}
