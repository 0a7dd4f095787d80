/** Small helper datatypes shared by the other modules. */
module Wrappers {

  /** An argument that may be missing: `None` stands for a Java argument
      that is `null` or of another class than the one expected. */
  datatype Option<T> = None | Some(value: T)
}
