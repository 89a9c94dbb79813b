/** The optional value used wherever the Swift code holds an optional or an
    implicitly unwrapped reference (a missing data source, delegate, index or date). */
module Options {
  datatype Option<+T> = None | Some(value: T)
}
