/** Option: the value a Python expression yields, or None where it raises. */
module Wrappers {

  datatype Option<+T> = None | Some(value: T)
}
