/** Values that may be absent, as every module uses them. */
module Options {
  datatype Option<+T> = None | Some(value: T)
}
