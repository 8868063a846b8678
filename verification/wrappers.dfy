/** An optional value shared by the bag and the catalogue; `None` plays the
    null pointer. */
module Wrappers {

  /** A value that may be absent; stands for a pointer that may be null. */
  datatype Option<T> = None | Some(value: T)
}
