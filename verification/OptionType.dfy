/** The conventional Some/None datatype. */
module OptionType {
  datatype Option<+T> = None | Some(value: T)
}
