/** The optional result shared by the models, in place of `std::optional` and of null pointers. */
module Wrappers {
  datatype Option<+T> = None | Some(value: T)
}
