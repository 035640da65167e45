/** `null`-or-value results of the scripts' lookups. */
module Optional {
  datatype Option<+T> = None | Some(value: T)
}
