/** The optional value used wherever the program works with a value that may be absent:
    a `TryParse` that fails, a reference that is still `null`. */
module Wrappers {

  datatype Option<+T> = None | Some(value: T)
}
