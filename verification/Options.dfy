/** The option type standing for std::optional and None. */
module Options {
  datatype Option<+T> = None | Some(value: T)
}
