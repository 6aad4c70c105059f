/** Optional values: the model's counterpart of a null shared pointer. */
module Options {
  datatype Option<+T> = None | Some(value: T)
}
