/** Small definitions shared by several modules. */
module Basics {

  datatype Option<+T> = None | Some(value: T)

  /** White space in the C locale. */
  predicate IsSpace(c: char) {
    c == ' ' || '\t' <= c <= '\r'
  }
}
