/** Optional values, shared by all modules of the model. */
module Options {
  datatype Option<+T> = None | Some(value: T)
}
