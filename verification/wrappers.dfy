/** Python's "value or None", used where the program reads an optional
    command-line argument. */
module Wrappers {

  datatype Option<+T> = None | Some(value: T)
}
