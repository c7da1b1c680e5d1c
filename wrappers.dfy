/** The optional value used for spreadsheet cells that may be empty (NaN in the source). */
module Wrappers {
  datatype Option<+T> = None | Some(value: T)
}
