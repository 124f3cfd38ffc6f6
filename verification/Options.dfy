/** The optional value used throughout the model for nullable pointers and std::optional. */
module Options {
  datatype Option<+T> = None | Some(value: T)
}
